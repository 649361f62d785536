/** Bulk prefill (control/prefill.py) and its agreement with the one-target refill. */
module ProxyPrefill {
  import opened Wrappers
  import opened Sequences
  import opened ProxyPool
  import opened ProxyPoolFacts

  /** What the generator would hand out for each target. */
  type Supply = nat -> Option<seq<string>>

  // ------------------------------------------------------------------ one batch

  /** Active targets among the wanted keys, in key order. */
  function LockedBatch(targets: seq<Target>, wanted: set<nat>, n: nat): (batch: seq<nat>)
    requires n <= |targets|
    ensures forall i :: 0 <= i < |batch| ==> batch[i] < n && batch[i] in wanted && targets[batch[i]].active
    ensures forall i, j :: 0 <= i < j < |batch| ==> batch[i] < batch[j]
    ensures forall t: nat :: t < n && t in wanted && targets[t].active ==> t in batch
  {
    if n == 0 then []
    else
      LockedBatch(targets, wanted, n - 1) + (if n - 1 in wanted && targets[n - 1].active then [n - 1] else [])
  }

  function ClaimAll(targets: seq<Target>, batch: seq<nat>, now: int): seq<Target> {
    seq(|targets|, t requires 0 <= t < |targets| =>
      if t in batch then targets[t].(refillPending := true, refillRequestedAt := Some(now)) else targets[t])
  }

  function ClearAll(targets: seq<Target>, batch: seq<nat>): seq<Target> {
    seq(|targets|, t requires 0 <= t < |targets| =>
      if t in batch then targets[t].(refillPending := false, refillRequestedAt := None) else targets[t])
  }

  /** The rows a batch generates from the stock it found; `None` when a generator fails. */
  function BatchRows(p: Pool, batch: seq<nat>, supply: Supply): Option<seq<Row>>
    requires forall i :: 0 <= i < |batch| ==> batch[i] < |p.targets| && Supplies(supply(batch[i]), Needed(p, batch[i]))
    decreases |batch|
  {
    if batch == [] then Some([])
    else
      var t := batch[0];
      assert Supplies(supply(batch[0]), Needed(p, batch[0]));
      match BatchRows(p, batch[1..], supply)
      case None => None
      case Some(rest) =>
        if Needed(p, t) == 0 then Some(rest)
        else if supply(t).None? then None
        else Some(RowsOf(t, supply(t).value[..Needed(p, t)]) + rest)
  }

  /** Scopes with an unfinished job, over the bundles, providers and countries of the batch. */
  function WaitingScopes(p: Pool, batch: seq<nat>): set<Scope>
    requires forall i :: 0 <= i < |batch| ==> batch[i] < |p.targets|
  {
    set j: nat | j < |p.jobs| && (p.jobs[j].status == Waiting || p.jobs[j].status == Partial) &&
                 p.jobs[j].scope.bundle in (set i | 0 <= i < |batch| :: p.targets[batch[i]].scope.bundle) &&
                 p.jobs[j].scope.provider in (set i | 0 <= i < |batch| :: p.targets[batch[i]].scope.provider) &&
                 p.jobs[j].scope.country in (set i | 0 <= i < |batch| :: p.targets[batch[i]].scope.country)
      :: p.jobs[j].scope
  }

  /** Fulfil the targets of the batch whose scope waits; an error rolls the batch back. */
  function FulfillListed(env: Env, p: Pool, batch: seq<nat>, waiting: set<Scope>): Option<Pool>
    requires forall i :: 0 <= i < |batch| ==> batch[i] < |p.targets|
    decreases |batch|
  {
    if batch == [] then Some(p)
    else if p.targets[batch[0]].scope !in waiting then FulfillListed(env, p, batch[1..], waiting)
    else
      FulfillFrame(env, p, batch[0]);
      match Fulfill(env, p, batch[0])
      case Raised(_) => None
      case Done(q) => FulfillListed(env, q, batch[1..], waiting)
  }

  ghost predicate BatchSupplied(p: Pool, batch: seq<nat>, supply: Supply) {
    forall i :: 0 <= i < |batch| ==> batch[i] < |p.targets| && Supplies(supply(batch[i]), Needed(p, batch[i]))
  }

  /** The generator always hands out as much as it is asked for, or fails. */
  ghost predicate Generous(p: Pool, supply: Supply) {
    forall t: nat | t < |p.targets| :: supply(t).Some? ==> p.targets[t].targetCount <= |supply(t).value|
  }

  /** One transaction of `fill_targets_direct` over the requested keys. */
  function FillBatch(env: Env, p: Pool, requested: seq<nat>, supply: Supply, now: int, staleBefore: int): Option<Pool>
    requires Generous(p, supply)
  {
    var batch := LockedBatch(p.targets, set i | i in requested, |p.targets|);
    if exists i :: 0 <= i < |requested| && requested[i] !in batch then None
    else if exists i :: 0 <= i < |batch| && Owned(p.targets[batch[i]], staleBefore) then None
    else
      match BatchRows(p, batch, supply)
      case None => None
      case Some(rows) =>
        var q := p.(targets := ClaimAll(p.targets, batch, now), entries := InsertRows(env, p.entries, rows));
        FulfillListedFrame(env, q, batch, WaitingScopes(q, batch));
        match FulfillListed(env, q, batch, WaitingScopes(q, batch))
        case None => None
        case Some(r) => Some(r.(targets := ClearAll(r.targets, batch)))
  }

  lemma {:induction false} FulfillListedFrame(env: Env, p: Pool, batch: seq<nat>, waiting: set<Scope>)
    requires forall i :: 0 <= i < |batch| ==> batch[i] < |p.targets|
    ensures var q := FulfillListed(env, p, batch, waiting);
            q.Some? ==> q.value.targets == p.targets && |q.value.entries| == |p.entries| && |q.value.jobs| == |p.jobs|
    decreases |batch|
  {
    if batch != [] {
      if p.targets[batch[0]].scope !in waiting {
        FulfillListedFrame(env, p, batch[1..], waiting);
      } else {
        FulfillFrame(env, p, batch[0]);
        var o := Fulfill(env, p, batch[0]);
        if o.Done? {
          FulfillListedFrame(env, o.pool, batch[1..], waiting);
        }
      }
    }
  }

  // ------------------------------------------------------------------ rows without conflicts

  lemma {:induction false} InsertRowsChunks(env: Env, es: seq<Entry>, a: seq<Row>, b: seq<Row>)
    ensures InsertRows(env, es, a + b) == InsertRows(env, InsertRows(env, es, a), b)
    decreases |a|
  {
    if a == [] {
      assert a + b == b;
    } else {
      var e := NewEntry(env, a[0]);
      InsertRowsChunks(env, if FingerprintUsed(es, e.fingerprint, |es|) then es else es + [e], a[1..], b);
      assert (a + b)[0] == a[0] && (a + b)[1..] == a[1..] + b;
    }
  }

  function NewEntries(env: Env, rows: seq<Row>): seq<Entry> {
    seq(|rows|, i requires 0 <= i < |rows| => NewEntry(env, rows[i]))
  }

  /** The rows are new: no two share a fingerprint and no live entry has one of theirs. */
  ghost predicate NewFingerprints(env: Env, es: seq<Entry>, rows: seq<Row>) {
    && (forall i, j :: 0 <= i < j < |rows| ==> env.digest(rows[i].line) != env.digest(rows[j].line))
    && (forall i, k :: 0 <= i < |rows| && 0 <= k < |es| && Live(es[k]) ==> es[k].fingerprint != env.digest(rows[i].line))
  }

  lemma {:induction false} NewRowsAppend(env: Env, es: seq<Entry>, rows: seq<Row>)
    requires NewFingerprints(env, es, rows)
    ensures InsertRows(env, es, rows) == es + NewEntries(env, rows)
    decreases |rows|
  {
    if rows != [] {
      NewRowsAppend(env, es + [NewEntry(env, rows[0])], rows[1..]);
      assert NewEntries(env, rows) == [NewEntry(env, rows[0])] + NewEntries(env, rows[1..]);
    } else {
      assert es + NewEntries(env, rows) == es;
    }
  }

  // ------------------------------------------------------------------ fulfilment ignores foreign rows

  /** The same targets up to their refill flags. */
  ghost predicate SameShape(a: seq<Target>, b: seq<Target>) {
    |a| == |b| && forall t :: 0 <= t < |a| ==> b[t].scope == a[t].scope && b[t].active == a[t].active
  }

  /** `q` is `p` with refill flags changed and the entries `extra` of other targets added. */
  ghost predicate Padded(p: Pool, q: Pool, extra: seq<Entry>) {
    SameShape(p.targets, q.targets) && q.entries == p.entries + extra && q.jobs == p.jobs && q.reservations == p.reservations
  }

  /** No entry of `extra` has the fingerprint an available entry of `t` could be issued with. */
  ghost predicate Apart(env: Env, p: Pool, t: nat, extra: seq<Entry>)
    requires t < |p.targets|
  {
    && (forall k | 0 <= k < |extra| :: extra[k].target != t)
    && (forall i, k | 0 <= i < |p.entries| && 0 <= k < |extra| ::
          p.entries[i].target == t && p.entries[i].state == Available ==>
            extra[k].fingerprint != env.digest(env.repair(p.targets[t].scope, p.entries[i].line)))
  }

  lemma {:induction false} StockPadded(es: seq<Entry>, extra: seq<Entry>, ts: set<nat>, n: nat)
    requires |es| <= n <= |es| + |extra| && forall k :: 0 <= k < |extra| ==> extra[k].target !in ts
    ensures Stock(es + extra, ts, n) == Stock(es, ts, |es|)
  {
    if n > |es| {
      StockPadded(es, extra, ts, n - 1);
    } else {
      StockAgrees(es, es + extra, ts, ts, |es|);
    }
  }

  lemma IssueOnePadded(env: Env, p: Pool, q: Pool, extra: seq<Entry>, t: nat, job: nat, id: nat)
    requires Padded(p, q, extra) && t < |p.targets| && Apart(env, p, t, extra)
    requires job < |p.jobs| && p.jobs[job].scope == p.targets[t].scope
    requires id < |p.entries| && p.entries[id].target == t && p.entries[id].state == Available
    ensures var a, b := IssueOne(env, p, job, id), IssueOne(env, q, job, id);
            a.Some? == b.Some? &&
            (a.Some? ==> a.value.targets == p.targets && b.value.targets == q.targets && a.value.jobs == p.jobs &&
                         Padded(a.value, b.value, extra) && Apart(env, a.value, t, extra) &&
                         |a.value.entries| == |p.entries| &&
                         forall i :: 0 <= i < |p.entries| && i != id ==> a.value.entries[i] == p.entries[i])
  {
    var e := p.entries[id];
    assert q.entries[id] == e;
    var line := env.repair(p.jobs[job].scope, e.line);
    if line != e.line {
      var fingerprint := env.digest(line);
      assert forall i :: 0 <= i < |p.entries| ==> q.entries[i] == p.entries[i];
      assert forall i :: |p.entries| <= i < |q.entries| ==> q.entries[i] == extra[i - |p.entries|];
      assert FingerprintUsed(p.entries, fingerprint, id) == FingerprintUsed(q.entries, fingerprint, id);
    }
  }

  lemma {:induction false} IssueAllPadded(env: Env, p: Pool, q: Pool, extra: seq<Entry>, t: nat, job: nat, ids: seq<nat>)
    requires Padded(p, q, extra) && t < |p.targets| && Apart(env, p, t, extra)
    requires job < |p.jobs| && p.jobs[job].scope == p.targets[t].scope
    requires forall i :: 0 <= i < |ids| ==> ids[i] < |p.entries| && p.entries[ids[i]].target == t && p.entries[ids[i]].state == Available
    requires forall i, j :: 0 <= i < j < |ids| ==> ids[i] < ids[j]
    ensures var a, b := IssueAll(env, p, job, ids), IssueAll(env, q, job, ids);
            a.Some? == b.Some? &&
            (a.Some? ==> a.value.targets == p.targets && b.value.targets == q.targets &&
                         Padded(a.value, b.value, extra) && Apart(env, a.value, t, extra))
    decreases |ids|
  {
    if ids != [] {
      IssueOnePadded(env, p, q, extra, t, job, ids[0]);
      var a, b := IssueOne(env, p, job, ids[0]), IssueOne(env, q, job, ids[0]);
      if a.Some? {
        IssueAllPadded(env, a.value, b.value, extra, t, job, ids[1..]);
      }
    }
  }

  lemma ServePadded(env: Env, p: Pool, q: Pool, extra: seq<Entry>, t: nat, job: nat)
    requires Padded(p, q, extra) && t < |p.targets| && Apart(env, p, t, extra)
    requires UniqueScopes(p.targets) && p.targets[t].active
    requires job < |p.jobs| && p.jobs[job].scope == p.targets[t].scope
    ensures var a, b := Serve(env, p, job), Serve(env, q, job);
            a.Some? == b.Some? &&
            (a.Some? ==> a.value.targets == p.targets && b.value.targets == q.targets &&
                         Padded(a.value, b.value, extra) && Apart(env, a.value, t, extra))
  {
    hide Stock, IssueAll, Apart, FingerprintUsed, CountFor;
    var ids := Take(AvailableIds(p.entries, t), Shortage(p, job));
    OpenStockOfTarget(p, t);
    OpenStockOfTarget(q, t);
    assert forall k :: 0 <= k < |extra| ==> extra[k].target !in {t} by {
      ApartTargets(env, p, t, extra);
    }
    StockPadded(p.entries, extra, {t}, |q.entries|);
    assert Reserve(env, p, job) == IssueAll(env, p, job, ids) && Reserve(env, q, job) == IssueAll(env, q, job, ids);
    StockInRange(p.entries, {t}, |p.entries|);
    StockComplete(p.entries, {t}, |p.entries|);
    IssueAllFrame(env, p, job, ids);
    IssueAllFrame(env, q, job, ids);
    IssueAllPadded(env, p, q, extra, t, job, ids);
    var a, b := IssueAll(env, p, job, ids), IssueAll(env, q, job, ids);
    if a.Some? {
      RecountStaysApart(env, a.value, job, t, extra);
    }
  }

  lemma RecountStaysApart(env: Env, p: Pool, job: nat, t: nat, extra: seq<Entry>)
    requires job < |p.jobs| && t < |p.targets| && Apart(env, p, t, extra)
    ensures Apart(env, Recount(p, job), t, extra)
  {
  }

  lemma ApartTargets(env: Env, p: Pool, t: nat, extra: seq<Entry>)
    requires t < |p.targets| && Apart(env, p, t, extra)
    ensures forall k | 0 <= k < |extra| :: extra[k].target != t
  {
  }

  lemma {:induction false} ServeAllPadded(env: Env, p: Pool, q: Pool, extra: seq<Entry>, t: nat, js: seq<nat>)
    requires Padded(p, q, extra) && t < |p.targets| && Apart(env, p, t, extra)
    requires UniqueScopes(p.targets) && p.targets[t].active
    requires forall a :: 0 <= a < |js| ==> js[a] < |p.jobs| && p.jobs[js[a]].scope == p.targets[t].scope
    ensures var a, b := ServeAll(env, p, t, js), ServeAll(env, q, t, js);
            a.Done? == b.Done? &&
            (a.Done? ==> Padded(a.pool, b.pool, extra) && a.pool.targets == p.targets && b.pool.targets == q.targets)
    decreases |js|
  {
    if js != [] {
      hide Stock, IssueAll, CountFor, Apart, Serve;
      ServePadded(env, p, q, extra, t, js[0]);
      var a, b := Serve(env, p, js[0]), Serve(env, q, js[0]);
      if a.Some? {
        ApartTargets(env, a.value, t, extra);
        StockPadded(a.value.entries, extra, {t}, |b.value.entries|);
        ServeFrame(env, p, js[0]);
        if AvailableCount(a.value.entries, t) != 0 {
          ServeAllPadded(env, a.value, b.value, extra, t, js[1..]);
        }
      }
    }
  }

  lemma ServeFrame(env: Env, p: Pool, job: nat)
    requires job < |p.jobs|
    ensures var r := Serve(env, p, job);
            r.Some? ==> |r.value.jobs| == |p.jobs| && forall j | 0 <= j < |p.jobs| :: r.value.jobs[j].scope == p.jobs[j].scope
  {
    IssueAllFrame(env, p, job, Take(OpenStock(p, p.jobs[job].scope), Shortage(p, job)));
  }

  /** Fulfilling a target does the same whether or not entries of other targets are there. */
  lemma FulfillPadded(env: Env, p: Pool, q: Pool, extra: seq<Entry>, t: nat)
    requires Padded(p, q, extra) && t < |p.targets| && Apart(env, p, t, extra)
    requires UniqueScopes(p.targets) && p.targets[t].active
    ensures var a, b := Fulfill(env, p, t), Fulfill(env, q, t);
            a.Done? == b.Done? &&
            (a.Done? ==> Padded(a.pool, b.pool, extra) && a.pool.targets == p.targets && b.pool.targets == q.targets)
  {
    UnfinishedInRange(p.jobs, p.targets[t].scope, |p.jobs|);
    ServeAllPadded(env, p, q, extra, t, UnfinishedJobs(p.jobs, p.targets[t].scope, |p.jobs|));
  }
}
