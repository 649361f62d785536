/** The ledger of the pool: over every run, the lines written for a target are the ones in
    stock, the ones issued and the ones dropped, and each issued one has its reservation. */
module ProxyPoolLedger {
  import opened Wrappers
  import opened Sequences
  import opened ProxyPool
  import opened ProxyPoolFacts
  import opened ProxyPrefill
  import opened ProxyPrefillRefinement
  import opened ProxyPoolSound
  import opened ProxyPoolRuns
  import opened ProxyPoolStock

  // ------------------------------------------------------------------ what a step writes and drops

  /** How many of `rows` an insert writes for target `t`: a row whose fingerprint is on a live
      row by then is skipped. */
  function Accepted(env: Env, es: seq<Entry>, rows: seq<Row>, t: nat): nat
    decreases |rows|
  {
    if rows == [] then 0
    else
      var e := NewEntry(env, rows[0]);
      if FingerprintUsed(es, e.fingerprint, |es|) then Accepted(env, es, rows[1..], t)
      else (if e.target == t then 1 else 0) + Accepted(env, es + [e], rows[1..], t)
  }

  /** The lines a step writes for target `t`: those a refill or a prefill gets past the unique
      constraint, and those a job creation lacked. */
  ghost function Inserted(env: Env, p: Pool, op: Op, t: nat): nat
    requires Enabled(p, op)
  {
    match op
    case TopUpOp(u, supply) =>
      if Needed(p, u) == 0 || supply.None? then 0
      else Accepted(env, p.entries, RowsOf(u, supply.value[..Needed(p, u)]), t)
    case CreateOp(r, lines, catalog, autoGenerate, brokered) =>
      if Dynamic(r.scope.provider) && t == KeyOf(p.targets, r.scope) && CreateJob(env, p, r, lines, catalog, autoGenerate, brokered).Some?
      then Missing(p, r) else 0
    case PrefillOp(requested, supplies, now, staleBefore) =>
      var batch := LockedBatch(p.targets, set i | i in requested, |p.targets|);
      if FillBatch(env, p, requested, supplies, now, staleBefore).Some? && BatchSupplied(p, batch, supplies) && BatchRows(p, batch, supplies).Some?
      then Accepted(env, p.entries, BatchRows(p, batch, supplies).value, t) else 0
    case _ => 0
  }

  /** The stock of target `t` a step drops: all of it when a request rotates the pool or the
      stock is removed, and what exceeds the new count when the target is resized. */
  ghost function Dropped(env: Env, p: Pool, op: Op, t: nat): nat
    requires Enabled(p, op)
  {
    match op
    case CreateOp(r, lines, catalog, autoGenerate, brokered) =>
      if Dynamic(r.scope.provider) && r.freshPool && Rotates(r.scope.provider) && t == KeyOf(p.targets, r.scope) &&
         CreateJob(env, p, r, lines, catalog, autoGenerate, brokered).Some?
      then AvailableCount(p.entries, t) else 0
    case RemoveOp(ts) => if t in ts then AvailableCount(p.entries, t) else 0
    case ResizeOp(ts, count, _, _, _, _) => if t in ts then Max(0, AvailableCount(p.entries, t) - count) else 0
    case _ => 0
  }

  ghost function InsertedOver(env: Env, p: Pool, ops: seq<Op>, t: nat): nat
    requires Legal(env, p, ops)
    decreases |ops|
  {
    if ops == [] then 0 else Inserted(env, p, ops[0], t) + InsertedOver(env, Step(env, p, ops[0]), ops[1..], t)
  }

  ghost function DroppedOver(env: Env, p: Pool, ops: seq<Op>, t: nat): nat
    requires Legal(env, p, ops)
    decreases |ops|
  {
    if ops == [] then 0 else Dropped(env, p, ops[0], t) + DroppedOver(env, Step(env, p, ops[0]), ops[1..], t)
  }

  // ------------------------------------------------------------------ counting rows

  function CountLive(es: seq<Entry>, t: nat): nat {
    if es == [] then 0
    else CountLive(es[..|es| - 1], t) + (if es[|es| - 1].target == t && Live(es[|es| - 1]) then 1 else 0)
  }

  function CountReserved(es: seq<Entry>, t: nat): nat {
    if es == [] then 0
    else CountReserved(es[..|es| - 1], t) + (if es[|es| - 1].target == t && es[|es| - 1].state == Reserved then 1 else 0)
  }

  /** A live row is in stock or issued. */
  lemma {:induction false} LiveIsStockedOrIssued(es: seq<Entry>, t: nat)
    ensures CountLive(es, t) == AvailableCount(es, t) + CountReserved(es, t)
  {
    if es != [] {
      LiveIsStockedOrIssued(es[..|es| - 1], t);
      StockAppends(es[..|es| - 1], es[|es| - 1], {t});
      assert es[..|es| - 1] + [es[|es| - 1]] == es;
    }
  }

  lemma LiveAppends(es: seq<Entry>, e: Entry, t: nat)
    ensures CountLive(es + [e], t) == CountLive(es, t) + (if e.target == t && Live(e) then 1 else 0)
  {
    assert (es + [e])[..|es|] == es;
  }

  lemma {:induction false} InsertCounts(env: Env, es: seq<Entry>, rows: seq<Row>, t: nat)
    ensures CountLive(InsertRows(env, es, rows), t) == CountLive(es, t) + Accepted(env, es, rows, t)
    decreases |rows|
  {
    if rows != [] {
      var e := NewEntry(env, rows[0]);
      LiveAppends(es, e, t);
      InsertCounts(env, if FingerprintUsed(es, e.fingerprint, |es|) then es else es + [e], rows[1..], t);
    }
  }

  /** New rows are all written. */
  lemma {:induction false} NewRowsCount(env: Env, es: seq<Entry>, u: nat, lines: seq<string>, t: nat)
    ensures CountLive(es + NewEntries(env, RowsOf(u, lines)), t) == CountLive(es, t) + (if u == t then |lines| else 0)
  {
    var fs := NewEntries(env, RowsOf(u, lines));
    if lines == [] {
      assert es + fs == es;
    } else {
      var n := |lines| - 1;
      var gs := NewEntries(env, RowsOf(u, lines[..n]));
      NewRowsCount(env, es, u, lines[..n], t);
      assert RowsOf(u, lines) == RowsOf(u, lines[..n]) + [Row(u, lines[n])];
      hide CountLive, RowsOf;
      assert fs == gs + [NewEntry(env, Row(u, lines[n]))];
      assert es + fs == (es + gs) + [NewEntry(env, Row(u, lines[n]))];
      LiveAppends(es + gs, NewEntry(env, Row(u, lines[n])), t);
    }
  }

  lemma {:induction false} DiscardKeepsReserved(es: seq<Entry>, gone: set<nat>, n: nat, t: nat)
    requires n <= |es|
    ensures CountReserved(Discard(es, gone)[..n], t) == CountReserved(es[..n], t)
  {
    var fs := Discard(es, gone);
    if n > 0 {
      DiscardKeepsReserved(es, gone, n - 1, t);
      assert fs[..n][..n - 1] == fs[..n - 1] && es[..n][..n - 1] == es[..n - 1];
    }
  }

  /** Discarding takes from the live rows what it takes from stock. */
  lemma DiscardCounts(es: seq<Entry>, gone: set<nat>, t: nat)
    ensures CountLive(Discard(es, gone), t) + AvailableCount(es, t) == CountLive(es, t) + AvailableCount(Discard(es, gone), t)
  {
    LiveIsStockedOrIssued(es, t);
    LiveIsStockedOrIssued(Discard(es, gone), t);
    DiscardKeepsReserved(es, gone, |es|, t);
    assert Discard(es, gone)[..|es|] == Discard(es, gone) && es[..|es|] == es;
  }

  // ------------------------------------------------------------------ issuing keeps rows alive

  ghost predicate SameLives(es: seq<Entry>, fs: seq<Entry>) {
    |es| == |fs| && forall i | 0 <= i < |es| :: fs[i].target == es[i].target && Live(fs[i]) == Live(es[i])
  }

  lemma {:induction false} SameLivesCount(es: seq<Entry>, fs: seq<Entry>, t: nat)
    requires SameLives(es, fs)
    ensures CountLive(es, t) == CountLive(fs, t)
  {
    if es != [] {
      SameLivesCount(es[..|es| - 1], fs[..|fs| - 1], t);
    }
  }

  lemma {:induction false} IssueAllLives(env: Env, p: Pool, job: nat, ids: seq<nat>)
    requires job < |p.jobs|
    requires forall i :: 0 <= i < |ids| ==> ids[i] < |p.entries| && p.entries[ids[i]].state == Available
    requires forall i, j :: 0 <= i < j < |ids| ==> ids[i] < ids[j]
    ensures var r := IssueAll(env, p, job, ids); r.Some? ==> SameLives(p.entries, r.value.entries)
    decreases |ids|
  {
    if ids != [] {
      var r := IssueOne(env, p, job, ids[0]);
      if r.Some? {
        IssueAllLives(env, r.value, job, ids[1..]);
      }
    }
  }

  lemma ReserveLives(env: Env, p: Pool, job: nat)
    requires job < |p.jobs|
    ensures var r := Reserve(env, p, job); r.Some? ==> SameLives(p.entries, r.value.entries)
  {
    StockInRange(p.entries, ActiveTargets(p.targets, p.jobs[job].scope), |p.entries|);
    StockComplete(p.entries, ActiveTargets(p.targets, p.jobs[job].scope), |p.entries|);
    IssueAllLives(env, p, job, Take(OpenStock(p, p.jobs[job].scope), Shortage(p, job)));
  }

  lemma {:induction false} ServeAllLives(env: Env, p: Pool, t: nat, js: seq<nat>)
    requires forall i :: 0 <= i < |js| ==> js[i] < |p.jobs|
    ensures SameLives(p.entries, ServeAll(env, p, t, js).pool.entries)
    decreases |js|
  {
    if js != [] {
      ReserveLives(env, p, js[0]);
      IssueAllFrame(env, p, js[0], Take(OpenStock(p, p.jobs[js[0]].scope), Shortage(p, js[0])));
      hide Reserve;
      var r := Serve(env, p, js[0]);
      if r.Some? && AvailableCount(r.value.entries, t) != 0 {
        ServeAllLives(env, r.value, t, js[1..]);
      }
    }
  }

  lemma FulfillLives(env: Env, p: Pool, t: nat)
    requires t < |p.targets|
    ensures SameLives(p.entries, Fulfill(env, p, t).pool.entries)
  {
    UnfinishedInRange(p.jobs, p.targets[t].scope, |p.jobs|);
    ServeAllLives(env, p, t, UnfinishedJobs(p.jobs, p.targets[t].scope, |p.jobs|));
  }

  lemma {:induction false} FulfillListedLives(env: Env, p: Pool, batch: seq<nat>, waiting: set<Scope>)
    requires forall i :: 0 <= i < |batch| ==> batch[i] < |p.targets|
    ensures var r := FulfillListed(env, p, batch, waiting); r.Some? ==> SameLives(p.entries, r.value.entries)
    decreases |batch|
  {
    if batch != [] {
      if p.targets[batch[0]].scope !in waiting {
        FulfillListedLives(env, p, batch[1..], waiting);
      } else {
        FulfillLives(env, p, batch[0]);
        FulfillFrame(env, p, batch[0]);
        var o := Fulfill(env, p, batch[0]);
        if o.Done? {
          FulfillListedLives(env, o.pool, batch[1..], waiting);
        }
      }
    }
  }

  lemma CreateOnLives(env: Env, p: Pool, r: JobRequest, catalog: seq<string>, autoGenerate: bool, brokered: bool)
    ensures var c := CreateOn(env, p, r, catalog, autoGenerate, brokered); c.Some? ==> SameLives(p.entries, c.value.entries)
  {
    var a, n := p.(jobs := p.jobs + [CreatedJob(r)]), |p.jobs|;
    ReserveLives(env, a, n);
    IssueAllFrame(env, a, n, Take(OpenStock(a, a.jobs[n].scope), Shortage(a, n)));
    hide Reserve, SameLives, ReserveStatic, WithTarget, FinalStatus, Shortage;
  }

  // ------------------------------------------------------------------ every step balances

  ghost predicate Balances(env: Env, p: Pool, op: Op, t: nat)
    requires Enabled(p, op)
  {
    CountLive(Step(env, p, op).entries, t) + Dropped(env, p, op, t) == CountLive(p.entries, t) + Inserted(env, p, op, t)
  }

  /** On a generated provider: what the request drops and writes, and an issue that keeps rows. */
  lemma DynamicBalances(env: Env, p: Pool, r: JobRequest, lines: Option<seq<string>>, catalog: seq<string>, autoGenerate: bool, brokered: bool, t: nat)
    requires ValidRequest(r) && Dynamic(r.scope.provider)
    ensures var c := CreateJob(env, p, r, lines, catalog, autoGenerate, brokered);
            c.Some? ==>
              CountLive(c.value.entries, t) +
                (if r.freshPool && Rotates(r.scope.provider) && t == KeyOf(p.targets, r.scope) then AvailableCount(p.entries, t) else 0)
                == CountLive(p.entries, t) + (if t == KeyOf(p.targets, r.scope) then Missing(p, r) else 0)
  {
    var q := Stocked(env, p, r, lines);
    var c := CreateJob(env, p, r, lines, catalog, autoGenerate, brokered);
    assert Stockable(env, p, r, lines) ==> |NewLines(p, r, lines)| == Missing(p, r);
    assert q.entries == Kept(p, r) + NewEntries(env, RowsOf(KeyOf(p.targets, r.scope), NewLines(p, r, lines)));
    hide CountLive, SameLives, CreateOn, EnsureInventory, Stock, Kept, Stocked, Stockable, NewLines, Missing, KeyOf, Rotates, NewEntries, RowsOf;
    EnsureExactly(env, p, r, lines);
    if c.Some? {
      CreateOnLives(env, q, r, catalog, autoGenerate, brokered);
      SameLivesCount(q.entries, c.value.entries, t);
      NewRowsCount(env, Kept(p, r), KeyOf(p.targets, r.scope), NewLines(p, r, lines), t);
      KeptCounts(p, r, t);
    }
  }

  lemma CreateBalances(env: Env, p: Pool, op: Op, t: nat)
    requires op.CreateOp? && Enabled(p, op)
    ensures Balances(env, p, op, t)
  {
    var r, lines, catalog := op.request, op.lines, op.catalog;
    var c := CreateJob(env, p, r, lines, catalog, op.autoGenerate, op.brokered);
    if Dynamic(r.scope.provider) {
      hide CountLive, CreateJob, Missing, KeyOf, Rotates, Stock;
      DynamicBalances(env, p, r, lines, catalog, op.autoGenerate, op.brokered, t);
    } else {
      hide CountLive, SameLives, CreateOn, EnsureInventory, Missing, KeyOf, Rotates, Stock;
      CreateOnLives(env, p, r, catalog, op.autoGenerate, op.brokered);
      if c.Some? {
        SameLivesCount(p.entries, c.value.entries, t);
      }
    }
  }

  lemma KeptCounts(p: Pool, r: JobRequest, t: nat)
    ensures CountLive(Kept(p, r), t) +
              (if r.freshPool && Rotates(r.scope.provider) && t == KeyOf(p.targets, r.scope) then AvailableCount(p.entries, t) else 0)
              == CountLive(p.entries, t)
  {
    var key := KeyOf(p.targets, r.scope);
    DiscardsAll(p.entries, key);
    DiscardsNewest(p.entries, key, 0);
    DiscardCounts(p.entries, Excess(p.entries, key, 0), t);
    hide CountLive, Stock, Discard, KeyOf, Rotates, Excess;
  }

  lemma PrefillBalances(env: Env, p: Pool, op: Op, t: nat)
    requires op.PrefillOp? && Enabled(p, op)
    ensures Balances(env, p, op, t)
  {
    var requested, supplies, now, staleBefore := op.requested, op.supplies, op.now, op.staleBefore;
    FillBatchUnfolds(env, p, requested, supplies, now, staleBefore);
    hide CountLive, SameLives, FillBatch, FulfillListed, LockedBatch, BatchRows, ClaimAll, ClearAll, InsertRows, WaitingScopes, Owned, Generous, Accepted;
    var c := FillBatch(env, p, requested, supplies, now, staleBefore);
    if c.Some? {
      var batch := LockedBatch(p.targets, set i | i in requested, |p.targets|);
      var rows := BatchRows(p, batch, supplies).value;
      var q := Filled(env, p, batch, rows, now);
      InsertCounts(env, p.entries, rows, t);
      FulfillListedLives(env, q, batch, WaitingScopes(q, batch));
      SameLivesCount(q.entries, c.value.entries, t);
    }
  }

  lemma {:induction false} RemoveCounts(p: Pool, ts: seq<nat>, t: nat)
    requires forall i :: 0 <= i < |ts| ==> ts[i] < |p.targets|
    ensures AvailableCount(RemoveAvailable(p, ts).entries, t) == if t in ts then 0 else AvailableCount(p.entries, t)
    ensures CountLive(RemoveAvailable(p, ts).entries, t) + (if t in ts then AvailableCount(p.entries, t) else 0) == CountLive(p.entries, t)
    decreases |ts|
  {
    if ts != [] {
      var u := ts[0];
      DiscardsAll(p.entries, u);
      DiscardsNewest(p.entries, u, 0);
      DiscardCounts(p.entries, Excess(p.entries, u, 0), t);
      hide CountLive, Stock, Discard, Excess;
      RemoveCounts(p.(
        entries := Discard(p.entries, set i | i in AvailableIds(p.entries, u)),
        targets := p.targets[u := p.targets[u].(active := false, refillPending := false)]), ts[1..], t);
      assert t in ts <==> t == u || t in ts[1..];
    }
  }

  lemma {:induction false} ResizeCounts(p: Pool, ts: seq<nat>, count: nat, threshold: nat, now: int, staleBefore: int, delivered: bool, t: nat)
    requires forall i :: 0 <= i < |ts| ==> ts[i] < |p.targets|
    ensures var q := Resize(p, ts, count, threshold, now, staleBefore, delivered);
            && AvailableCount(q.entries, t) == (if t in ts then Min(count, AvailableCount(p.entries, t)) else AvailableCount(p.entries, t))
            && CountLive(q.entries, t) + (if t in ts then Max(0, AvailableCount(p.entries, t) - count) else 0) == CountLive(p.entries, t)
    decreases |ts|
  {
    if ts != [] {
      var u := ts[0];
      var es := Discard(p.entries, Excess(p.entries, u, count));
      DiscardsNewest(p.entries, u, count);
      DiscardCounts(p.entries, Excess(p.entries, u, count), t);
      hide CountLive, Stock, Discard, Excess, QueueRefill;
      var resized := p.targets[u := p.targets[u].(targetCount := count, replenishBelow := threshold, active := true)];
      var targets := if AvailableCount(es, u) < threshold then QueueRefill(resized, u, now, staleBefore, delivered).0 else resized;
      assert |targets| == |p.targets| by {
        ClaimKeepsLength(resized, u, now, staleBefore, delivered);
      }
      ResizeCounts(p.(entries := es, targets := targets), ts[1..], count, threshold, now, staleBefore, delivered, t);
      assert t in ts <==> t == u || t in ts[1..];
    }
  }

  lemma ClaimKeepsLength(targets: seq<Target>, t: nat, now: int, staleBefore: int, delivered: bool)
    ensures |QueueRefill(targets, t, now, staleBefore, delivered).0| == |targets|
  {
  }

  /** A step drops what it drops and writes what it writes; everything else stays alive. */
  lemma StepBalances(env: Env, p: Pool, op: Op, t: nat)
    requires Enabled(p, op)
    ensures Balances(env, p, op, t)
  {
    hide CountLive, SameLives, TopUp, Reserve, Fulfill, MarkFailed, RemoveAvailable, Resize, CreateJob, FillBatch, Stock, Accepted, InsertRows;
    match op
    case TopUpOp(u, supply) => TopUpCounts(env, p, u, supply, t);
    case ReserveOp(j) =>
      ReserveLives(env, p, j);
      if Reserve(env, p, j).Some? {
        SameLivesCount(p.entries, Reserve(env, p, j).value.entries, t);
      }
    case WriteBackOp(j, ready, status) =>
    case FulfillOp(u) =>
      FulfillLives(env, p, u);
      SameLivesCount(p.entries, Fulfill(env, p, u).pool.entries, t);
    case MarkFailedOp(u) => MarkFailedKeepsRows(p, u);
    case ClaimOp(u, now, staleBefore, delivered) =>
    case ClearOp(u) =>
    case CreateOp(r, lines, catalog, autoGenerate, brokered) => CreateBalances(env, p, op, t);
    case PrefillOp(requested, supplies, now, staleBefore) => PrefillBalances(env, p, op, t);
    case RemoveOp(ts) => RemoveCounts(p, ts, t);
    case ResizeOp(ts, count, threshold, now, staleBefore, delivered) => ResizeCounts(p, ts, count, threshold, now, staleBefore, delivered, t);
    case ExpandOp(d) =>
  }

  lemma MarkFailedKeepsRows(p: Pool, t: nat)
    requires t < |p.targets|
    ensures MarkFailed(p, t).entries == p.entries
  {
  }

  lemma TopUpCounts(env: Env, p: Pool, u: nat, supply: Option<seq<string>>, t: nat)
    requires u < |p.targets| && Supplies(supply, Needed(p, u))
    ensures CountLive(OrUnchanged(p, TopUp(env, p, u, supply)).entries, t) ==
              CountLive(p.entries, t) +
                if Needed(p, u) == 0 || supply.None? then 0 else Accepted(env, p.entries, RowsOf(u, supply.value[..Needed(p, u)]), t)
  {
    if Needed(p, u) != 0 && supply.Some? {
      InsertCounts(env, p.entries, RowsOf(u, supply.value[..Needed(p, u)]), t);
    }
  }

  lemma {:induction false} RunBalances(env: Env, p: Pool, ops: seq<Op>, t: nat)
    requires Legal(env, p, ops)
    ensures CountLive(Run(env, p, ops).entries, t) + DroppedOver(env, p, ops, t) == CountLive(p.entries, t) + InsertedOver(env, p, ops, t)
    decreases |ops|
  {
    hide Enabled, Step, Inserted, Dropped, CountLive;
    if ops != [] {
      StepBalances(env, p, ops[0], t);
      RunBalances(env, Step(env, p, ops[0]), ops[1..], t);
    }
  }

  // ------------------------------------------------------------------ issued rows and their reservations

  ghost function ReservedRows(es: seq<Entry>, t: nat): set<nat> {
    set i: nat | i < |es| && es[i].target == t && es[i].state == Reserved
  }

  /** The reservations of entries of target `t`. */
  ghost function ReservationsOf(p: Pool, t: nat): set<nat> {
    set k: nat | k < |p.reservations| && p.reservations[k].entry.Some? && p.reservations[k].entry.value < |p.entries| &&
                 p.entries[p.reservations[k].entry.value].target == t
  }

  lemma {:induction false} CountIsSize(es: seq<Entry>, t: nat)
    ensures CountReserved(es, t) == |ReservedRows(es, t)|
  {
    if es != [] {
      var n := |es| - 1;
      CountIsSize(es[..n], t);
      assert ReservedRows(es, t) ==
        ReservedRows(es[..n], t) + (if es[n].target == t && es[n].state == Reserved then {n} else {});
    }
  }

  lemma {:induction false} SizeOfImage(p: Pool, ks: set<nat>, rows: set<nat>)
    requires forall k :: k in ks ==> k < |p.reservations| && p.reservations[k].entry.Some? && p.reservations[k].entry.value in rows
    requires forall i :: i in rows ==> exists k :: k in ks && k < |p.reservations| && p.reservations[k].entry == Some(i)
    requires forall j, k :: j in ks && k in ks && j != k ==> p.reservations[j].entry != p.reservations[k].entry
    ensures |ks| == |rows|
    decreases |ks|
  {
    if k :| k in ks {
      var i := p.reservations[k].entry.value;
      forall x | x in rows - {i} ensures exists j :: j in ks - {k} && j < |p.reservations| && p.reservations[j].entry == Some(x) {
        var j :| j in ks && j < |p.reservations| && p.reservations[j].entry == Some(x);
        assert j != k;
      }
      SizeOfImage(p, ks - {k}, rows - {i});
      assert |rows| == |rows - {i}| + 1;
    } else {
      assert rows == {};
    }
  }

  lemma ReservationsMatchRows(env: Env, p: Pool, t: nat)
    requires Sound(env, p)
    ensures |ReservationsOf(p, t)| == |ReservedRows(p.entries, t)|
  {
    var ks, rows := ReservationsOf(p, t), ReservedRows(p.entries, t);
    forall k | k in ks ensures p.reservations[k].entry.value in rows {
      assert Matches(p.entries, p.reservations[k]);
    }
    forall i | i in rows ensures exists k :: k in ks && k < |p.reservations| && p.reservations[k].entry == Some(i) {
      assert Backed(p.reservations, i);
      var k: nat :| k < |p.reservations| && p.reservations[k].entry == Some(i);
      assert k in ks;
    }
    forall j, k | j in ks && k in ks && j != k ensures p.reservations[j].entry != p.reservations[k].entry {
      assert Matches(p.entries, p.reservations[j]) && Matches(p.entries, p.reservations[k]);
      assert p.reservations[j].fingerprint != p.reservations[k].fingerprint;
    }
    hide Sound;
    SizeOfImage(p, ks, rows);
  }

  /** Over every run, the lines ever written for a target are those in stock, those issued and
      those dropped, and each issued one has exactly one reservation. */
  lemma GeneratedIsAccountedFor(env: Env, ops: seq<Op>, t: nat)
    requires Legal(env, Empty, ops)
    ensures var q := Run(env, Empty, ops);
            InsertedOver(env, Empty, ops, t) ==
              AvailableCount(q.entries, t) + |ReservationsOf(q, t)| + DroppedOver(env, Empty, ops, t)
  {
    var q := Run(env, Empty, ops);
    RunBalances(env, Empty, ops, t);
    RunIsGood(env, Empty, ops);
    hide Legal, Run, InsertedOver, DroppedOver, Sound, Extends, Stock, ReservationsOf;
    LiveIsStockedOrIssued(q.entries, t);
    CountIsSize(q.entries, t);
    ReservationsMatchRows(env, q, t);
  }

  /** What leaves the stock of a target between two states is dropped or has a new reservation. */
  lemma DeparturesAreAccountedFor(env: Env, before: seq<Op>, after: seq<Op>, t: nat)
    requires Legal(env, Empty, before) && Legal(env, Run(env, Empty, before), after)
    ensures var p := Run(env, Empty, before);
            var q := Run(env, p, after);
            AvailableCount(p.entries, t) + InsertedOver(env, p, after, t) ==
              AvailableCount(q.entries, t) + (|ReservationsOf(q, t)| - |ReservationsOf(p, t)|) + DroppedOver(env, p, after, t)
  {
    var p := Run(env, Empty, before);
    var q := Run(env, p, after);
    RunBalances(env, p, after, t);
    RunIsGood(env, Empty, before);
    RunIsGood(env, p, after);
    hide Legal, Run, InsertedOver, DroppedOver, Sound, Extends, Stock, ReservationsOf;
    LiveIsStockedOrIssued(p.entries, t);
    LiveIsStockedOrIssued(q.entries, t);
    CountIsSize(p.entries, t);
    CountIsSize(q.entries, t);
    ReservationsMatchRows(env, p, t);
    ReservationsMatchRows(env, q, t);
  }
}
