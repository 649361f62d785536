/** Bulk prefill gives every target and every job what the one-target refills would, run in
    turn in the order in which its batches take the targets. */
module ProxyPrefillRefinement {
  import opened Wrappers
  import opened Sequences
  import opened ProxyPool
  import opened ProxyPoolFacts
  import opened ProxyPrefill

  // ------------------------------------------------------------------ the guard on waiting scopes

  /** Whoever is unfinished afterwards was unfinished before. */
  ghost predicate NoNewcomers(p: Pool, q: Pool) {
    |q.jobs| == |p.jobs| && forall j: nat, scope: Scope | j < |p.jobs| :: Unfinished(q.jobs[j], scope) ==> Unfinished(p.jobs[j], scope)
  }

  lemma {:induction false} ServeAllAdmitsNobody(env: Env, p: Pool, t: nat, js: seq<nat>)
    requires t < |p.targets| && forall a, b :: 0 <= a < b < |js| ==> js[a] < js[b]
    requires forall a :: 0 <= a < |js| ==> js[a] < |p.jobs| && Unfinished(p.jobs[js[a]], p.targets[t].scope)
    ensures NoNewcomers(p, ServeAll(env, p, t, js).pool)
    decreases |js|
  {
    if js != [] {
      var r := Serve(env, p, js[0]);
      IssueAllFrame(env, p, js[0], Take(OpenStock(p, p.jobs[js[0]].scope), Shortage(p, js[0])));
      if r.Some? && AvailableCount(r.value.entries, t) != 0 {
        ServeAllAdmitsNobody(env, r.value, t, js[1..]);
      }
    }
  }

  lemma FulfillAdmitsNobody(env: Env, p: Pool, t: nat)
    requires t < |p.targets|
    ensures NoNewcomers(p, Fulfill(env, p, t).pool)
  {
    UnfinishedComplete(p.jobs, p.targets[t].scope, |p.jobs|);
    UnfinishedInRange(p.jobs, p.targets[t].scope, |p.jobs|);
    ServeAllAdmitsNobody(env, p, t, UnfinishedJobs(p.jobs, p.targets[t].scope, |p.jobs|));
  }

  /** Fulfil every target of the batch, waiting or not. */
  function FulfillEach(env: Env, p: Pool, batch: seq<nat>): Option<Pool>
    requires forall i :: 0 <= i < |batch| ==> batch[i] < |p.targets|
    decreases |batch|
  {
    if batch == [] then Some(p)
    else
      FulfillFrame(env, p, batch[0]);
      match Fulfill(env, p, batch[0])
      case Raised(_) => None
      case Done(q) => FulfillEach(env, q, batch[1..])
  }

  /** Every scope outside `waiting` has no unfinished job. */
  ghost predicate Covers(p: Pool, batch: seq<nat>, waiting: set<Scope>) {
    forall i, j: nat | 0 <= i < |batch| && j < |p.jobs| ::
      batch[i] < |p.targets| && p.targets[batch[i]].scope !in waiting ==> !Unfinished(p.jobs[j], p.targets[batch[i]].scope)
  }

  lemma IdleFulfill(env: Env, p: Pool, t: nat)
    requires t < |p.targets| && forall j: nat | j < |p.jobs| :: !Unfinished(p.jobs[j], p.targets[t].scope)
    ensures Fulfill(env, p, t) == Done(p)
  {
    NobodyUnfinished(p.jobs, p.targets[t].scope, |p.jobs|);
  }

  lemma CoversRest(p: Pool, q: Pool, batch: seq<nat>, waiting: set<Scope>)
    requires batch != [] && Covers(p, batch, waiting) && q.targets == p.targets && NoNewcomers(p, q)
    ensures Covers(q, batch[1..], waiting)
  {
    forall i, j: nat | 0 <= i < |batch[1..]| && j < |q.jobs| && batch[1..][i] < |q.targets| &&
                       q.targets[batch[1..][i]].scope !in waiting
      ensures !Unfinished(q.jobs[j], q.targets[batch[1..][i]].scope)
    {
      assert batch[1..][i] == batch[i + 1];
      assert !Unfinished(p.jobs[j], p.targets[batch[i + 1]].scope);
    }
  }

  lemma {:induction false} GuardChangesNothing(env: Env, p: Pool, batch: seq<nat>, waiting: set<Scope>)
    requires forall i :: 0 <= i < |batch| ==> batch[i] < |p.targets|
    requires Covers(p, batch, waiting)
    ensures FulfillListed(env, p, batch, waiting) == FulfillEach(env, p, batch)
    decreases |batch|
  {
    if batch != [] {
      var t := batch[0];
      FulfillFrame(env, p, t);
      FulfillAdmitsNobody(env, p, t);
      var o := Fulfill(env, p, t);
      CoversRest(p, o.pool, batch, waiting);
      if p.targets[t].scope !in waiting {
        assert forall j: nat | j < |p.jobs| :: !Unfinished(p.jobs[j], p.targets[batch[0]].scope);
        IdleFulfill(env, p, t);
      }
      hide Covers, Fulfill, NoNewcomers;
      if o.Done? {
        GuardChangesNothing(env, o.pool, batch[1..], waiting);
      }
    }
  }

  lemma {:induction false} NobodyUnfinished(jobs: seq<Job>, scope: Scope, n: nat)
    requires n <= |jobs| && forall j :: 0 <= j < n ==> !Unfinished(jobs[j], scope)
    ensures UnfinishedJobs(jobs, scope, n) == []
  {
    if n > 0 {
      NobodyUnfinished(jobs, scope, n - 1);
    }
  }

  lemma WaitingScopesCover(p: Pool, batch: seq<nat>)
    requires forall i :: 0 <= i < |batch| ==> batch[i] < |p.targets|
    ensures Covers(p, batch, WaitingScopes(p, batch))
  {
    forall i, j: nat | 0 <= i < |batch| && j < |p.jobs| && Unfinished(p.jobs[j], p.targets[batch[i]].scope)
      ensures p.targets[batch[i]].scope in WaitingScopes(p, batch)
    {
      assert p.jobs[j].scope == p.targets[batch[i]].scope;
    }
  }

  // ------------------------------------------------------------------ which entries fulfilment touches

  /** `f` is `e`, or `e` issued from the stock of target `t`. */
  predicate Touched(env: Env, scope: Scope, t: nat, e: Entry, f: Entry) {
    f == e ||
    (&& e.target == t == f.target && e.state == Available && f.state == Reserved
     && (f.fingerprint == e.fingerprint || f.fingerprint == env.digest(env.repair(scope, e.line))))
  }

  ghost predicate OnlyTouches(env: Env, p: Pool, q: Pool, scope: Scope, t: nat) {
    |q.entries| == |p.entries| && forall i | 0 <= i < |p.entries| :: Touched(env, scope, t, p.entries[i], q.entries[i])
  }

  lemma {:induction false} IssueAllTouches(env: Env, p: Pool, job: nat, t: nat, ids: seq<nat>)
    requires job < |p.jobs|
    requires forall i :: 0 <= i < |ids| ==> ids[i] < |p.entries| && p.entries[ids[i]].target == t && p.entries[ids[i]].state == Available
    requires forall i, j :: 0 <= i < j < |ids| ==> ids[i] < ids[j]
    ensures var r := IssueAll(env, p, job, ids); r.Some? ==> OnlyTouches(env, p, r.value, p.jobs[job].scope, t)
    decreases |ids|
  {
    if ids != [] {
      var r := IssueOne(env, p, job, ids[0]);
      if r.Some? {
        IssueAllTouches(env, r.value, job, t, ids[1..]);
        var q := IssueAll(env, r.value, job, ids[1..]);
        if q.Some? {
          forall i | 0 <= i < |p.entries| ensures Touched(env, p.jobs[job].scope, t, p.entries[i], q.value.entries[i]) {
            assert Touched(env, p.jobs[job].scope, t, r.value.entries[i], q.value.entries[i]);
          }
        }
      }
    }
  }

  lemma ServeTouches(env: Env, p: Pool, t: nat, job: nat)
    requires UniqueScopes(p.targets) && t < |p.targets| && p.targets[t].active
    requires job < |p.jobs| && p.jobs[job].scope == p.targets[t].scope
    ensures var r := Serve(env, p, job); r.Some? ==> r.value.targets == p.targets && OnlyTouches(env, p, r.value, p.targets[t].scope, t)
  {
    OpenStockOfTarget(p, t);
    StockInRange(p.entries, {t}, |p.entries|);
    StockComplete(p.entries, {t}, |p.entries|);
    var ids := Take(AvailableIds(p.entries, t), Shortage(p, job));
    IssueAllFrame(env, p, job, ids);
    IssueAllTouches(env, p, job, t, ids);
  }

  lemma {:induction false} ServeAllTouches(env: Env, p: Pool, t: nat, js: seq<nat>)
    requires UniqueScopes(p.targets) && t < |p.targets| && p.targets[t].active
    requires forall a :: 0 <= a < |js| ==> js[a] < |p.jobs| && p.jobs[js[a]].scope == p.targets[t].scope
    ensures OnlyTouches(env, p, ServeAll(env, p, t, js).pool, p.targets[t].scope, t)
    decreases |js|
  {
    if js != [] {
      ServeTouches(env, p, t, js[0]);
      var r := Serve(env, p, js[0]);
      IssueAllFrame(env, p, js[0], Take(OpenStock(p, p.jobs[js[0]].scope), Shortage(p, js[0])));
      if r.Some? && AvailableCount(r.value.entries, t) != 0 {
        ServeAllTouches(env, r.value, t, js[1..]);
        var q := ServeAll(env, r.value, t, js[1..]).pool;
        forall i | 0 <= i < |p.entries| ensures Touched(env, p.targets[t].scope, t, p.entries[i], q.entries[i]) {
          assert Touched(env, p.targets[t].scope, t, p.entries[i], r.value.entries[i]);
          assert Touched(env, p.targets[t].scope, t, r.value.entries[i], q.entries[i]);
        }
      }
    }
  }

  lemma FulfillTouches(env: Env, p: Pool, t: nat)
    requires UniqueScopes(p.targets) && t < |p.targets| && p.targets[t].active
    ensures OnlyTouches(env, p, Fulfill(env, p, t).pool, p.targets[t].scope, t)
  {
    UnfinishedInRange(p.jobs, p.targets[t].scope, |p.jobs|);
    ServeAllTouches(env, p, t, UnfinishedJobs(p.jobs, p.targets[t].scope, |p.jobs|));
  }

  // ------------------------------------------------------------------ fresh supply

  function Lines(supply: Supply, t: nat): seq<string> {
    if supply(t).Some? then supply(t).value else []
  }

  /** The lines on offer for the targets `ts` are new and stay new: their fingerprints are
      distinct, differ from those in the pool and from those a repair could give a stocked
      line, and a new line needs no repair. */
  ghost predicate FreshSupply(env: Env, p: Pool, ts: seq<nat>, supply: Supply) {
    && (forall a | 0 <= a < |ts| :: ts[a] < |p.targets|)
    && (forall a, b, i, j | 0 <= a < |ts| && 0 <= b < |ts| && 0 <= i < |Lines(supply, ts[a])| && 0 <= j < |Lines(supply, ts[b])| ::
          env.digest(Lines(supply, ts[a])[i]) == env.digest(Lines(supply, ts[b])[j]) ==> ts[a] == ts[b] && i == j)
    && (forall a, i, k | 0 <= a < |ts| && 0 <= i < |Lines(supply, ts[a])| && 0 <= k < |p.entries| ::
          Live(p.entries[k]) ==> p.entries[k].fingerprint != env.digest(Lines(supply, ts[a])[i]))
    && (forall a, b, i, k | 0 <= a < |ts| && 0 <= b < |ts| && 0 <= i < |Lines(supply, ts[a])| && 0 <= k < |p.entries| ::
          p.entries[k].target == ts[b] && p.entries[k].state == Available ==>
            env.digest(env.repair(p.targets[ts[b]].scope, p.entries[k].line)) != env.digest(Lines(supply, ts[a])[i]))
    && (forall a, i | 0 <= a < |ts| && 0 <= i < |Lines(supply, ts[a])| ::
          env.repair(p.targets[ts[a]].scope, Lines(supply, ts[a])[i]) == Lines(supply, ts[a])[i])
  }

  ghost predicate Eligible(p: Pool, ts: seq<nat>) {
    && UniqueScopes(p.targets)
    && (forall a | 0 <= a < |ts| :: ts[a] < |p.targets| && p.targets[ts[a]].active)
    && (forall a, b | 0 <= a < b < |ts| :: ts[a] != ts[b])
  }

  /** Every row of a batch is a line on offer for its own target, and no line comes twice. */
  ghost predicate FromSupply(supply: Supply, ts: seq<nat>, rows: seq<Row>) {
    && (forall r | 0 <= r < |rows| :: rows[r].target in ts && rows[r].line in Lines(supply, rows[r].target))
    && (forall r, s | 0 <= r < s < |rows| :: rows[r].target == rows[s].target ==> rows[r].line != rows[s].line)
  }

  lemma {:induction false} BatchRowsFromSupply(env: Env, p: Pool, ts: seq<nat>, supply: Supply)
    requires BatchSupplied(p, ts, supply) && FreshSupply(env, p, ts, supply)
    requires forall a, b | 0 <= a < b < |ts| :: ts[a] != ts[b]
    ensures BatchRows(p, ts, supply).Some? ==> FromSupply(supply, ts, BatchRows(p, ts, supply).value)
    decreases |ts|
  {
    if ts != [] {
      var t := ts[0];
      assert Supplies(supply(ts[0]), Needed(p, ts[0]));
      RowsSplit(p, ts, supply);
      FirstLines(t, supply, Needed(p, t));
      hide FreshSupply, FromSupply, BatchRows, Lines, RowsOf, Needed;
      FreshSupplyOfSome(env, p, ts, ts[1..], supply);
      BatchRowsFromSupply(env, p, ts[1..], supply);
      DistinctLines(env, p, ts, supply);
      if BatchRows(p, ts, supply).Some? {
        var mine := if Needed(p, t) == 0 then [] else RowsOf(t, supply(t).value[..Needed(p, t)]);
        FromSupplyJoins(supply, ts, mine, BatchRows(p, ts[1..], supply).value);
        assert mine == [] ==> mine + BatchRows(p, ts[1..], supply).value == BatchRows(p, ts[1..], supply).value;
      }
    }
  }

  lemma FirstLines(t: nat, supply: Supply, n: nat)
    requires Supplies(supply(t), n)
    ensures supply(t).Some? ==>
              var mine := RowsOf(t, supply(t).value[..n]);
              |mine| <= |Lines(supply, t)| && forall r | 0 <= r < |mine| :: mine[r].line == Lines(supply, t)[r] && mine[r].target == t
  {
  }

  lemma DistinctLines(env: Env, p: Pool, ts: seq<nat>, supply: Supply)
    requires ts != [] && FreshSupply(env, p, ts, supply)
    ensures forall i, j | 0 <= i < j < |Lines(supply, ts[0])| :: Lines(supply, ts[0])[i] != Lines(supply, ts[0])[j]
  {
    forall i, j | 0 <= i < j < |Lines(supply, ts[0])| ensures Lines(supply, ts[0])[i] != Lines(supply, ts[0])[j] {
      assert env.digest(Lines(supply, ts[0])[i]) != env.digest(Lines(supply, ts[0])[j]);
    }
  }

  /** Rows of the first target in front of rows of the others. */
  lemma FromSupplyJoins(supply: Supply, ts: seq<nat>, mine: seq<Row>, rest: seq<Row>)
    requires ts != [] && ts[0] !in ts[1..] && FromSupply(supply, ts[1..], rest) && |mine| <= |Lines(supply, ts[0])|
    requires forall r | 0 <= r < |mine| :: mine[r].line == Lines(supply, ts[0])[r] && mine[r].target == ts[0]
    requires forall i, j | 0 <= i < j < |Lines(supply, ts[0])| :: Lines(supply, ts[0])[i] != Lines(supply, ts[0])[j]
    ensures FromSupply(supply, ts, mine + rest)
  {
    var rows := mine + rest;
    hide Lines;
    forall r | 0 <= r < |rows|
      ensures rows[r].target in ts && rows[r].line in Lines(supply, rows[r].target)
      ensures r >= |mine| ==> rows[r] == rest[r - |mine|] && rows[r].target != ts[0]
    {
      if r >= |mine| {
        assert rest[r - |mine|].target in ts[1..];
      }
    }
  }

  lemma FreshRowsAreNew(env: Env, p: Pool, ts: seq<nat>, supply: Supply, rows: seq<Row>)
    requires FreshSupply(env, p, ts, supply) && FromSupply(supply, ts, rows)
    ensures NewFingerprints(env, p.entries, rows)
  {
    forall i, j | 0 <= i < j < |rows| ensures env.digest(rows[i].line) != env.digest(rows[j].line) {
      var a, x := OfferOf(supply, ts, rows, i);
      var b, y := OfferOf(supply, ts, rows, j);
    }
    forall i, k | 0 <= i < |rows| && 0 <= k < |p.entries| && Live(p.entries[k])
      ensures p.entries[k].fingerprint != env.digest(rows[i].line)
    {
      var a, x := OfferOf(supply, ts, rows, i);
    }
  }

  // ------------------------------------------------------------------ refills run in turn

  /** The one-target refill of each target in turn; an error stops the whole. */
  function InTurn(env: Env, p: Pool, ts: seq<nat>, supply: Supply): Option<Pool>
    requires Generous(p, supply)
    decreases |ts|
  {
    if ts == [] then Some(p)
    else
      RefillFrame(env, p, ts[0], supply(ts[0]));
      match Refill(env, p, ts[0], supply(ts[0]))
      case Raised(_) => None
      case Done(q) => InTurn(env, q, ts[1..], supply)
  }

  lemma RefillFrame(env: Env, p: Pool, t: nat, supply: Option<seq<string>>)
    requires t < |p.targets| ==> Supplies(supply, Needed(p, t))
    ensures var q := Refill(env, p, t, supply).pool;
            q.targets == if t < |p.targets| then ClearClaim(p.targets, t) else p.targets
  {
    if t < |p.targets| && p.targets[t].active {
      var q := TopUp(env, p, t, supply);
      if q.Some? {
        FulfillFrame(env, q.value, t);
      }
    }
  }

  /** The stock of a target other than `t` is the same in `q` as in `p`. */
  ghost predicate OthersKept(p: Pool, q: Pool, t: nat) {
    && |p.entries| <= |q.entries|
    && (forall i | 0 <= i < |p.entries| :: q.entries[i].target == p.entries[i].target &&
          (p.entries[i].target != t ==> q.entries[i] == p.entries[i]))
    && (forall i | |p.entries| <= i < |q.entries| :: q.entries[i].target == t)
  }

  lemma {:induction false} StockOfOthers(p: Pool, q: Pool, t: nat, u: nat, n: nat)
    requires OthersKept(p, q, t) && u != t && |p.entries| <= n <= |q.entries|
    ensures Stock(q.entries, {u}, n) == AvailableIds(p.entries, u)
  {
    if n == |p.entries| {
      StockAgrees(p.entries, q.entries, {u}, {u}, n);
    } else {
      StockOfOthers(p, q, t, u, n - 1);
    }
  }

  lemma {:induction false} SameRowsLater(p: Pool, q: Pool, t: nat, ts: seq<nat>, supply: Supply)
    requires OthersKept(p, q, t) && t !in ts && BatchSupplied(p, ts, supply) && BatchSupplied(q, ts, supply)
    requires |q.targets| == |p.targets| && forall u :: 0 <= u < |p.targets| ==> q.targets[u].targetCount == p.targets[u].targetCount
    ensures BatchRows(q, ts, supply) == BatchRows(p, ts, supply)
    decreases |ts|
  {
    if ts != [] {
      assert ts[0] in ts;
      StockOfOthers(p, q, t, ts[0], |q.entries|);
      SameRowsLater(p, q, t, ts[1..], supply);
      assert Supplies(supply(ts[0]), Needed(p, ts[0]));
    }
  }

  lemma GenerousSupplies(p: Pool, ts: seq<nat>, supply: Supply)
    requires Generous(p, supply) && forall a :: 0 <= a < |ts| ==> ts[a] < |p.targets|
    ensures BatchSupplied(p, ts, supply)
  {
  }

  /** Row `k` once target `ts[0]` is refilled: the old row, or an old or new row of the target issued. */
  lemma RowAfter(env: Env, p: Pool, mid: Pool, q: Pool, ts: seq<nat>, supply: Supply, mine: seq<Row>, k: nat)
    requires ts != [] && Eligible(p, ts) && FreshSupply(env, p, ts, supply)
    requires forall r | 0 <= r < |mine| :: mine[r].target == ts[0] && mine[r].line in Lines(supply, ts[0])
    requires mid.entries == p.entries + NewEntries(env, mine)
    requires OnlyTouches(env, mid, q, p.targets[ts[0]].scope, ts[0])
    requires k < |q.entries|
    ensures |p.entries| <= |q.entries| && Touched(env, p.targets[ts[0]].scope, ts[0], mid.entries[k], q.entries[k])
    ensures if k < |p.entries| then mid.entries[k] == p.entries[k]
            else mid.entries[k] == NewEntry(env, mine[k - |p.entries|]) && mine[k - |p.entries|].line in Lines(supply, ts[0]) &&
                 mid.entries[k].target == ts[0]
  {
    hide FreshSupply, Lines;
  }

  lemma LaterLineDiffers(env: Env, p: Pool, mid: Pool, q: Pool, ts: seq<nat>, supply: Supply, mine: seq<Row>, a: nat, i: nat, k: nat)
    requires ts != [] && Eligible(p, ts) && FreshSupply(env, p, ts, supply)
    requires forall r | 0 <= r < |mine| :: mine[r].target == ts[0] && mine[r].line in Lines(supply, ts[0])
    requires mid.entries == p.entries + NewEntries(env, mine)
    requires OnlyTouches(env, mid, q, p.targets[ts[0]].scope, ts[0])
    requires a + 1 < |ts| && i < |Lines(supply, ts[a + 1])| && k < |q.entries| && Live(q.entries[k])
    ensures q.entries[k].fingerprint != env.digest(Lines(supply, ts[a + 1])[i])
  {
    RowAfter(env, p, mid, q, ts, supply, mine, k);
    hide OnlyTouches, UniqueScopes;
    assert ts[0] != ts[a + 1];
    if k >= |p.entries| {
      var line := mine[k - |p.entries|].line;
      var x :| 0 <= x < |Lines(supply, ts[0])| && Lines(supply, ts[0])[x] == line;
      assert env.repair(p.targets[ts[0]].scope, line) == line;
    } else {
      assert Live(p.entries[k]);
    }
  }

  lemma LaterRepairDiffers(env: Env, p: Pool, mid: Pool, q: Pool, ts: seq<nat>, supply: Supply, mine: seq<Row>, a: nat, b: nat, i: nat, k: nat)
    requires ts != [] && Eligible(p, ts) && FreshSupply(env, p, ts, supply)
    requires forall r | 0 <= r < |mine| :: mine[r].target == ts[0] && mine[r].line in Lines(supply, ts[0])
    requires mid.entries == p.entries + NewEntries(env, mine)
    requires OnlyTouches(env, mid, q, p.targets[ts[0]].scope, ts[0])
    requires a + 1 < |ts| && b + 1 < |ts| && i < |Lines(supply, ts[a + 1])| && k < |q.entries|
    requires q.entries[k].target == ts[b + 1] && q.entries[k].state == Available
    ensures env.digest(env.repair(p.targets[ts[b + 1]].scope, q.entries[k].line)) != env.digest(Lines(supply, ts[a + 1])[i])
  {
    RowAfter(env, p, mid, q, ts, supply, mine, k);
    hide OnlyTouches, UniqueScopes;
    assert ts[0] != ts[b + 1];
    assert k < |p.entries| && q.entries[k] == p.entries[k];
  }

  /** After target `t` is refilled from its fresh lines, the other lines are still fresh. */
  lemma FreshSupplyLasts(env: Env, p: Pool, mid: Pool, q: Pool, ts: seq<nat>, supply: Supply, mine: seq<Row>)
    requires ts != [] && Eligible(p, ts) && FreshSupply(env, p, ts, supply)
    requires forall r | 0 <= r < |mine| :: mine[r].target == ts[0] && mine[r].line in Lines(supply, ts[0])
    requires mid.entries == p.entries + NewEntries(env, mine)
    requires OnlyTouches(env, mid, q, p.targets[ts[0]].scope, ts[0])
    requires SameShape(p.targets, q.targets)
    ensures FreshSupply(env, q, ts[1..], supply)
    ensures OthersKept(p, q, ts[0])
  {
    assert |q.entries| == |mid.entries| && forall a :: 0 <= a < |ts[1..]| ==> ts[1..][a] == ts[a + 1];
    hide OnlyTouches, UniqueScopes;
    forall k | 0 <= k < |q.entries|
      ensures Touched(env, p.targets[ts[0]].scope, ts[0], mid.entries[k], q.entries[k])
      ensures k < |p.entries| ==> mid.entries[k] == p.entries[k]
      ensures k >= |p.entries| ==> mid.entries[k].target == ts[0]
    {
      RowAfter(env, p, mid, q, ts, supply, mine, k);
    }
    forall a, i, k | 0 <= a < |ts[1..]| && 0 <= i < |Lines(supply, ts[1..][a])| && 0 <= k < |q.entries| && Live(q.entries[k])
      ensures q.entries[k].fingerprint != env.digest(Lines(supply, ts[1..][a])[i])
    {
      LaterLineDiffers(env, p, mid, q, ts, supply, mine, a, i, k);
    }
    forall a, b, i, k | 0 <= a < |ts[1..]| && 0 <= b < |ts[1..]| && 0 <= i < |Lines(supply, ts[1..][a])| && 0 <= k < |q.entries| &&
                        q.entries[k].target == ts[1..][b] && q.entries[k].state == Available
      ensures env.digest(env.repair(q.targets[ts[1..][b]].scope, q.entries[k].line)) != env.digest(Lines(supply, ts[1..][a])[i])
    {
      LaterRepairDiffers(env, p, mid, q, ts, supply, mine, a, b, i, k);
    }
  }

  /** Splitting the rows of a batch at its first target. */
  lemma RowsSplit(p: Pool, ts: seq<nat>, supply: Supply)
    requires ts != [] && BatchSupplied(p, ts, supply)
    ensures var rows, rest := BatchRows(p, ts, supply), BatchRows(p, ts[1..], supply);
            var t := ts[0];
            if Needed(p, t) == 0 then rows == rest
            else if supply(t).None? || rest.None? then rows.None?
            else rows == Some(RowsOf(t, supply(t).value[..Needed(p, t)]) + rest.value)
  {
    assert Supplies(supply(ts[0]), Needed(p, ts[0]));
  }

  /** The rows target `t` gets from its own refill. */
  function Mine(p: Pool, t: nat, supply: Supply): seq<Row>
    requires t < |p.targets| && Supplies(supply(t), Needed(p, t))
  {
    if Needed(p, t) == 0 || supply(t).None? then [] else RowsOf(t, supply(t).value[..Needed(p, t)])
  }

  lemma MineIsOffered(p: Pool, t: nat, supply: Supply)
    requires t < |p.targets| && Supplies(supply(t), Needed(p, t))
    ensures forall r | 0 <= r < |Mine(p, t, supply)| ::
              Mine(p, t, supply)[r].target == t && Mine(p, t, supply)[r].line in Lines(supply, t)
  {
    forall r | 0 <= r < |Mine(p, t, supply)| ensures Mine(p, t, supply)[r].line in Lines(supply, t) {
      assert Mine(p, t, supply)[r].line == Lines(supply, t)[r];
    }
  }

  /** Topping up from fresh lines appends exactly the needed rows. */
  lemma TopUpAppends(env: Env, p: Pool, ts: seq<nat>, supply: Supply)
    requires ts != [] && Eligible(p, ts) && FreshSupply(env, p, ts, supply) && Generous(p, supply)
    ensures var t := ts[0];
            Supplies(supply(t), Needed(p, t)) &&
            TopUp(env, p, t, supply(t)) ==
              if Needed(p, t) != 0 && supply(t).None? then None
              else Some(p.(entries := p.entries + NewEntries(env, Mine(p, t, supply))))
  {
    var t := ts[0];
    GenerousSupplies(p, ts, supply);
    assert Supplies(supply(ts[0]), Needed(p, ts[0]));
    MineIsOffered(p, t, supply);
    var mine := Mine(p, t, supply);
    if Needed(p, t) == 0 {
      assert p.entries + NewEntries(env, mine) == p.entries;
    } else if supply(t).Some? {
      forall r, s | 0 <= r < s < |mine| ensures mine[r].line != mine[s].line {
        assert mine[r].line == Lines(supply, ts[0])[r] && mine[s].line == Lines(supply, ts[0])[s];
      }
      FreshRowsAreNew(env, p, ts, supply, mine);
      NewRowsAppend(env, p.entries, mine);
    }
  }

  /** Where a row of a batch comes from. */
  lemma OfferOf(supply: Supply, ts: seq<nat>, rows: seq<Row>, k: nat) returns (a: nat, x: nat)
    requires FromSupply(supply, ts, rows) && k < |rows|
    ensures a < |ts| && ts[a] == rows[k].target && x < |Lines(supply, ts[a])| && Lines(supply, ts[a])[x] == rows[k].line
  {
    assert rows[k].target in ts && rows[k].line in Lines(supply, rows[k].target);
    a :| a < |ts| && ts[a] == rows[k].target;
    x :| x < |Lines(supply, ts[a])| && Lines(supply, ts[a])[x] == rows[k].line;
  }

  lemma RowIsApart(env: Env, p: Pool, ts: seq<nat>, supply: Supply, rest: seq<Row>, e: Entry, k: nat)
    requires ts != [] && Eligible(p, ts) && FreshSupply(env, p, ts, supply)
    requires FromSupply(supply, ts[1..], rest) && k < |rest| && e.target == ts[0] && e.state == Available
    requires e in p.entries || e.line in Lines(supply, ts[0])
    ensures rest[k].target != ts[0]
    ensures env.digest(rest[k].line) != env.digest(env.repair(p.targets[ts[0]].scope, e.line))
  {
    var a, x := OfferOf(supply, ts[1..], rest, k);
    assert ts[1..][a] == ts[a + 1];
    if e in p.entries {
      var i :| 0 <= i < |p.entries| && p.entries[i] == e;
      assert env.digest(env.repair(p.targets[ts[0]].scope, p.entries[i].line)) != env.digest(Lines(supply, ts[a + 1])[x]);
    } else {
      var y :| 0 <= y < |Lines(supply, ts[0])| && Lines(supply, ts[0])[y] == e.line;
      assert env.digest(Lines(supply, ts[a + 1])[x]) != env.digest(Lines(supply, ts[0])[y]);
    }
  }

  /** The rows of the later targets keep clear of what target `ts[0]` may be issued with. */
  lemma RestIsApart(env: Env, p: Pool, ts: seq<nat>, supply: Supply, rest: seq<Row>)
    requires ts != [] && Eligible(p, ts) && FreshSupply(env, p, ts, supply)
    requires Supplies(supply(ts[0]), Needed(p, ts[0])) && FromSupply(supply, ts[1..], rest)
    ensures Apart(env, p.(entries := p.entries + NewEntries(env, Mine(p, ts[0], supply))), ts[0], NewEntries(env, rest))
  {
    var t, mine := ts[0], Mine(p, ts[0], supply);
    var q := p.(entries := p.entries + NewEntries(env, mine));
    MineIsOffered(p, t, supply);
    hide FreshSupply;
    forall k | 0 <= k < |rest| ensures rest[k].target != t {
      var a, x := OfferOf(supply, ts[1..], rest, k);
      assert ts[1..][a] == ts[a + 1];
    }
    forall i, k | 0 <= i < |q.entries| && 0 <= k < |rest| && q.entries[i].target == t && q.entries[i].state == Available
      ensures env.digest(rest[k].line) != env.digest(env.repair(p.targets[t].scope, q.entries[i].line))
    {
      if i < |p.entries| {
        assert q.entries[i] == p.entries[i];
      } else {
        assert q.entries[i].line == mine[i - |p.entries|].line;
      }
      RowIsApart(env, p, ts, supply, rest, q.entries[i], k);
    }
  }

  lemma PaddedInParts(env: Env, p: Pool, q: Pool, mine: seq<Row>, rest: seq<Row>)
    requires Padded(p, q, NewEntries(env, mine + rest))
    ensures Padded(p.(entries := p.entries + NewEntries(env, mine)), q, NewEntries(env, rest))
  {
    hide SameShape;
    assert NewEntries(env, mine + rest) == NewEntries(env, mine) + NewEntries(env, rest);
    hide NewEntries;
    assert q.entries == (p.entries + NewEntries(env, mine)) + NewEntries(env, rest);
  }

  /** The filled batch is the refilled first target padded with the rows of the rest. */
  lemma PaddedAtFirst(env: Env, p: Pool, q: Pool, ts: seq<nat>, supply: Supply)
    requires ts != [] && BatchSupplied(p, ts, supply) && BatchRows(p, ts, supply).Some?
    requires Padded(p, q, NewEntries(env, BatchRows(p, ts, supply).value))
    ensures BatchRows(p, ts[1..], supply).Some? && Supplies(supply(ts[0]), Needed(p, ts[0]))
    ensures Needed(p, ts[0]) != 0 ==> supply(ts[0]).Some?
    ensures Padded(p.(entries := p.entries + NewEntries(env, Mine(p, ts[0], supply))), q,
                   NewEntries(env, BatchRows(p, ts[1..], supply).value))
  {
    assert Supplies(supply(ts[0]), Needed(p, ts[0]));
    RowsSplit(p, ts, supply);
    var mine, rest := Mine(p, ts[0], supply), BatchRows(p, ts[1..], supply).value;
    assert BatchRows(p, ts, supply).value == mine + rest;
    hide *;
    PaddedInParts(env, p, q, mine, rest);
  }

  lemma RefillUnfolds(env: Env, p: Pool, mid: Pool, t: nat, supply: Option<seq<string>>)
    requires t < |p.targets| && p.targets[t].active && Supplies(supply, Needed(p, t))
    requires TopUp(env, p, t, supply) == Some(mid) && mid.targets == p.targets
    ensures Refill(env, p, t, supply).Done? == Fulfill(env, mid, t).Done?
    ensures Fulfill(env, mid, t).Done? ==>
              var r := Fulfill(env, mid, t).pool;
              r.targets == p.targets && Refill(env, p, t, supply).pool == r.(targets := ClearClaim(p.targets, t))
  {
    FulfillFrame(env, mid, t);
  }

  lemma BatchRowsRest(env: Env, p: Pool, ts: seq<nat>, supply: Supply)
    requires ts != [] && Eligible(p, ts) && FreshSupply(env, p, ts, supply)
    requires BatchSupplied(p, ts, supply) && BatchRows(p, ts[1..], supply).Some?
    ensures FromSupply(supply, ts[1..], BatchRows(p, ts[1..], supply).value)
  {
    FreshSupplyOfSome(env, p, ts, ts[1..], supply);
    BatchRowsFromSupply(env, p, ts[1..], supply);
  }

  lemma PaddedCleared(p: Pool, q: Pool, extra: seq<Entry>, t: nat)
    requires Padded(p, q, extra) && t < |p.targets|
    ensures Padded(p.(targets := ClearClaim(p.targets, t)), q, extra)
  {
  }

  /** Fulfilment of the refilled target, with and without the rows of the later targets. */
  lemma MidAgrees(env: Env, p: Pool, mid: Pool, q: Pool, extra: seq<Entry>, ts: seq<nat>, supply: Supply, mine: seq<Row>)
    requires ts != [] && Eligible(p, ts) && FreshSupply(env, p, ts, supply)
    requires forall r | 0 <= r < |mine| :: mine[r].target == ts[0] && mine[r].line in Lines(supply, ts[0])
    requires mid == p.(entries := p.entries + NewEntries(env, mine))
    requires Padded(mid, q, extra) && Apart(env, mid, ts[0], extra)
    ensures var r, b := Fulfill(env, mid, ts[0]), Fulfill(env, q, ts[0]);
            r.Done? == b.Done? &&
            (r.Done? ==>
               var a := r.pool.(targets := ClearClaim(p.targets, ts[0]));
               && Padded(a, b.pool, extra) && b.pool.targets == q.targets
               && FreshSupply(env, a, ts[1..], supply) && OthersKept(p, a, ts[0]))
  {
    var t := ts[0];
    assert t < |p.targets| && UniqueScopes(mid.targets) && mid.targets[t].active;
    hide *;
    FulfillPadded(env, mid, q, extra, t);
    FulfillTouches(env, mid, t);
    var r := Fulfill(env, mid, t);
    if r.Done? {
      var a := r.pool.(targets := ClearClaim(p.targets, t));
      PaddedCleared(r.pool, Fulfill(env, q, t).pool, extra, t);
      OnlyEntriesMatter(env, mid, r.pool, a, p.targets[t].scope, t);
      FreshSupplyLasts(env, p, mid, a, ts, supply, mine);
    }
  }

  /** One target of the batch: its refill and its fulfilment in the filled batch agree. */
  lemma OneTargetAgrees(env: Env, p: Pool, q: Pool, ts: seq<nat>, supply: Supply)
    requires ts != [] && Eligible(p, ts) && FreshSupply(env, p, ts, supply) && Generous(p, supply)
    requires BatchSupplied(p, ts, supply) && BatchRows(p, ts, supply).Some?
    requires Padded(p, q, NewEntries(env, BatchRows(p, ts, supply).value))
    ensures BatchRows(p, ts[1..], supply).Some?
    ensures Supplies(supply(ts[0]), Needed(p, ts[0]))
    ensures var a, b := Refill(env, p, ts[0], supply(ts[0])), Fulfill(env, q, ts[0]);
            var rest := BatchRows(p, ts[1..], supply).value;
            a.Done? == b.Done? &&
            (a.Done? ==> Padded(a.pool, b.pool, NewEntries(env, rest)) && b.pool.targets == q.targets &&
                         FreshSupply(env, a.pool, ts[1..], supply) && OthersKept(p, a.pool, ts[0]))
  {
    var t := ts[0];
    PaddedAtFirst(env, p, q, ts, supply);
    TopUpAppends(env, p, ts, supply);
    var mine, rest := Mine(p, t, supply), BatchRows(p, ts[1..], supply).value;
    var mid := p.(entries := p.entries + NewEntries(env, mine));
    BatchRowsRest(env, p, ts, supply);
    RestIsApart(env, p, ts, supply, rest);
    RefillUnfolds(env, p, mid, t, supply(t));
    MineIsOffered(p, t, supply);
    hide FreshSupply, Apart, TopUp, BatchRows, Refill, Fulfill, FromSupply, OthersKept, Padded, NewEntries;
    MidAgrees(env, p, mid, q, NewEntries(env, rest), ts, supply, mine);
  }

  lemma OnlyEntriesMatter(env: Env, p: Pool, q: Pool, r: Pool, scope: Scope, t: nat)
    requires OnlyTouches(env, p, q, scope, t) && r.entries == q.entries
    ensures OnlyTouches(env, p, r, scope, t)
  {
  }

  lemma EligibleLater(p: Pool, q: Pool, ts: seq<nat>)
    requires ts != [] && Eligible(p, ts) && q.targets == ClearClaim(p.targets, ts[0])
    ensures Eligible(q, ts[1..]) && ts[0] !in ts[1..]
  {
  }

  /** What the batch still has to do, on both sides. */
  ghost predicate BatchAhead(env: Env, p: Pool, q: Pool, ts: seq<nat>, supply: Supply) {
    && Eligible(p, ts) && FreshSupply(env, p, ts, supply) && Generous(p, supply) && BatchSupplied(p, ts, supply)
    && BatchRows(p, ts, supply).Some? && Padded(p, q, NewEntries(env, BatchRows(p, ts, supply).value))
  }

  lemma BatchAheadNext(env: Env, p: Pool, q: Pool, ts: seq<nat>, supply: Supply)
    requires ts != [] && BatchAhead(env, p, q, ts, supply)
    ensures Supplies(supply(ts[0]), Needed(p, ts[0])) && ts[0] < |p.targets| && ts[0] < |q.targets|
    ensures var a, b := Refill(env, p, ts[0], supply(ts[0])), Fulfill(env, q, ts[0]);
            a.Done? == b.Done? &&
            (a.Done? ==> a.pool.targets == ClearClaim(p.targets, ts[0]) && b.pool.targets == q.targets &&
                         BatchAhead(env, a.pool, b.pool, ts[1..], supply))
  {
    OneTargetAgrees(env, p, q, ts, supply);
    RefillFrame(env, p, ts[0], supply(ts[0]));
    var a := Refill(env, p, ts[0], supply(ts[0]));
    if a.Done? {
      hide Refill, Fulfill, FreshSupply, OthersKept, Padded, BatchRows;
      EligibleLater(p, a.pool, ts);
      GenerousSupplies(a.pool, ts[1..], supply);
      SameRowsLater(p, a.pool, ts[0], ts[1..], supply);
    }
  }

  lemma EmptyBatch(p: Pool, q: Pool)
    requires Padded(p, q, [])
    ensures p == q.(targets := ClearAll(p.targets, []))
  {
    assert q.entries == p.entries;
    assert ClearAll(p.targets, []) == p.targets;
  }

  lemma ClearsRest(targets: seq<Target>, ts: seq<nat>)
    requires ts != [] && ts[0] < |targets|
    ensures ClearAll(ClearClaim(targets, ts[0]), ts[1..]) == ClearAll(targets, ts)
  {
  }

  lemma InTurnUnfolds(env: Env, p: Pool, ts: seq<nat>, supply: Supply)
    requires ts != [] && ts[0] < |p.targets| && Generous(p, supply)
    ensures var a := Refill(env, p, ts[0], supply(ts[0]));
            if a.Done? then Generous(a.pool, supply) && InTurn(env, p, ts, supply) == InTurn(env, a.pool, ts[1..], supply)
            else InTurn(env, p, ts, supply) == None
  {
    RefillFrame(env, p, ts[0], supply(ts[0]));
  }

  lemma FulfillEachUnfolds(env: Env, q: Pool, ts: seq<nat>)
    requires ts != [] && forall i :: 0 <= i < |ts| ==> ts[i] < |q.targets|
    ensures var b := Fulfill(env, q, ts[0]);
            if b.Done? then b.pool.targets == q.targets && FulfillEach(env, q, ts) == FulfillEach(env, b.pool, ts[1..])
            else FulfillEach(env, q, ts) == None
  {
    FulfillFrame(env, q, ts[0]);
  }

  lemma BatchInRange(env: Env, p: Pool, q: Pool, ts: seq<nat>, supply: Supply)
    requires BatchAhead(env, p, q, ts, supply)
    ensures Generous(p, supply) && forall i :: 0 <= i < |ts| ==> ts[i] < |p.targets| && ts[i] < |q.targets|
    ensures ts == [] ==> Padded(p, q, [])
  {
  }

  /** Filling a batch and then fulfilling each of its targets equals refilling them in turn. */
  lemma {:induction false} FilledBatchEqualsInTurn(env: Env, p: Pool, q: Pool, ts: seq<nat>, supply: Supply)
    requires BatchAhead(env, p, q, ts, supply)
    ensures Generous(p, supply) && forall i :: 0 <= i < |ts| ==> ts[i] < |p.targets| && ts[i] < |q.targets|
    ensures var a, b := InTurn(env, p, ts, supply), FulfillEach(env, q, ts);
            a.Some? == b.Some? &&
            (a.Some? ==> a.value == b.value.(targets := ClearAll(p.targets, ts)))
    decreases |ts|
  {
    BatchInRange(env, p, q, ts, supply);
    hide BatchAhead, Generous, Padded, ClearAll, ClearClaim, Refill, Fulfill;
    if ts == [] {
      EmptyBatch(p, q);
    } else {
      BatchAheadNext(env, p, q, ts, supply);
      InTurnUnfolds(env, p, ts, supply);
      FulfillEachUnfolds(env, q, ts);
      hide InTurn, FulfillEach;
      var a, b := Refill(env, p, ts[0], supply(ts[0])), Fulfill(env, q, ts[0]);
      if a.Done? {
        FilledBatchEqualsInTurn(env, a.pool, b.pool, ts[1..], supply);
        ClearsRest(p.targets, ts);
      }
    }
  }

  /** A refill from fresh lines leaves the lines of the later targets fresh. */
  lemma RefillKeepsFresh(env: Env, p: Pool, ts: seq<nat>, supply: Supply)
    requires ts != [] && Eligible(p, ts) && FreshSupply(env, p, ts, supply) && Generous(p, supply)
    ensures Supplies(supply(ts[0]), Needed(p, ts[0]))
    ensures var a := Refill(env, p, ts[0], supply(ts[0]));
            a.Done? ==>
              && (Needed(p, ts[0]) == 0 || supply(ts[0]).Some?)
              && FreshSupply(env, a.pool, ts[1..], supply) && Eligible(a.pool, ts[1..]) && Generous(a.pool, supply)
              && OthersKept(p, a.pool, ts[0]) && a.pool.targets == ClearClaim(p.targets, ts[0])
  {
    var t := ts[0];
    TopUpAppends(env, p, ts, supply);
    RefillFrame(env, p, t, supply(t));
    var a := Refill(env, p, t, supply(t));
    if a.Done? {
      var mid := p.(entries := p.entries + NewEntries(env, Mine(p, t, supply)));
      assert TopUp(env, p, t, supply(t)) == Some(mid) && (Needed(p, t) == 0 || supply(t).Some?) by {
        assert p.targets[t].active;
        hide FreshSupply, OthersKept, Mine, NewEntries;
      }
      RefillUnfolds(env, p, mid, t, supply(t));
      assert Generous(a.pool, supply) && Eligible(a.pool, ts[1..]) && Eligible(mid, ts) by {
        EligibleLater(p, a.pool, ts);
        hide Refill;
      }
      hide Refill, Fulfill, TopUp, Generous, Eligible, OthersKept, FreshSupply, Mine, NewEntries, OnlyTouches;
      RefilledIsFresh(env, p, mid, a.pool, ts, supply);
    }
  }

  lemma RefilledIsFresh(env: Env, p: Pool, mid: Pool, a: Pool, ts: seq<nat>, supply: Supply)
    requires ts != [] && Eligible(p, ts) && FreshSupply(env, p, ts, supply)
    requires Supplies(supply(ts[0]), Needed(p, ts[0])) && ts[0] < |p.targets|
    requires mid == p.(entries := p.entries + NewEntries(env, Mine(p, ts[0], supply)))
    requires Fulfill(env, mid, ts[0]).Done? && a == Fulfill(env, mid, ts[0]).pool.(targets := ClearClaim(p.targets, ts[0]))
    ensures FreshSupply(env, a, ts[1..], supply) && OthersKept(p, a, ts[0])
  {
    var t := ts[0];
    MineIsOffered(p, t, supply);
    assert UniqueScopes(mid.targets) && mid.targets[t].active;
    hide *;
    FulfillTouches(env, mid, t);
    OnlyEntriesMatter(env, mid, Fulfill(env, mid, t).pool, a, p.targets[t].scope, t);
    FreshSupplyLasts(env, p, mid, a, ts, supply, Mine(p, t, supply));
  }

  /** When a generator of the batch fails, the refills in turn raise as well. */
  lemma {:induction false} MissingRowsRaise(env: Env, p: Pool, ts: seq<nat>, supply: Supply)
    requires Eligible(p, ts) && FreshSupply(env, p, ts, supply) && Generous(p, supply)
    requires BatchSupplied(p, ts, supply) && BatchRows(p, ts, supply).None?
    ensures InTurn(env, p, ts, supply).None?
    decreases |ts|
  {
    RowsSplit(p, ts, supply);
    RefillKeepsFresh(env, p, ts, supply);
    var a := Refill(env, p, ts[0], supply(ts[0]));
    if a.Done? {
      EligibleLater(p, a.pool, ts);
      GenerousSupplies(a.pool, ts[1..], supply);
      SameRowsLater(p, a.pool, ts[0], ts[1..], supply);
      hide Refill, FreshSupply, OthersKept;
      MissingRowsRaise(env, a.pool, ts[1..], supply);
    }
  }

  /** The batch a transaction works on when every requested target is active and unowned. */
  ghost predicate Unowned(p: Pool, requested: seq<nat>, staleBefore: int) {
    forall i | 0 <= i < |requested| ::
      requested[i] < |p.targets| && p.targets[requested[i]].active && !Owned(p.targets[requested[i]], staleBefore)
  }

  /** `FillBatch` step by step. */
  lemma FillBatchUnfolds(env: Env, p: Pool, requested: seq<nat>, supply: Supply, now: int, staleBefore: int)
    requires Generous(p, supply)
    ensures var batch := LockedBatch(p.targets, set i | i in requested, |p.targets|);
            && BatchSupplied(p, batch, supply)
            && |ClaimAll(p.targets, batch, now)| == |p.targets|
            && FillBatch(env, p, requested, supply, now, staleBefore) ==
                 if (exists i :: 0 <= i < |requested| && requested[i] !in batch) ||
                    (exists i :: 0 <= i < |batch| && Owned(p.targets[batch[i]], staleBefore)) || BatchRows(p, batch, supply).None? then None
                 else
                   var q := Filled(env, p, batch, BatchRows(p, batch, supply).value, now);
                   match FulfillListed(env, q, batch, WaitingScopes(q, batch))
                   case None => None
                   case Some(r) => Some(r.(targets := ClearAll(r.targets, batch)))
  {
    var batch := LockedBatch(p.targets, set i | i in requested, |p.targets|);
    GenerousSupplies(p, batch, supply);
    assert |ClaimAll(p.targets, batch, now)| == |p.targets|;
    hide LockedBatch, BatchRows, InsertRows, FulfillListed, WaitingScopes, ClaimAll, ClearAll, Owned, Generous;
  }

  lemma FillBatchProceeds(env: Env, p: Pool, requested: seq<nat>, supply: Supply, now: int, staleBefore: int)
    requires Generous(p, supply) && Unowned(p, requested, staleBefore)
    ensures var batch := LockedBatch(p.targets, set i | i in requested, |p.targets|);
            && BatchSupplied(p, batch, supply)
            && FillBatch(env, p, requested, supply, now, staleBefore) ==
                 match BatchRows(p, batch, supply)
                 case None => None
                 case Some(rows) =>
                   var q := Filled(env, p, batch, rows, now);
                   match FulfillListed(env, q, batch, WaitingScopes(q, batch))
                   case None => None
                   case Some(r) => Some(r.(targets := ClearAll(p.targets, batch)))
  {
    var batch := LockedBatch(p.targets, set i | i in requested, |p.targets|);
    GenerousSupplies(p, batch, supply);
    BatchIsLocked(p, requested, batch, staleBefore);
    hide Unowned, LockedBatch, Owned, Generous, InsertRows, WaitingScopes, BatchRows, FulfillListed, ClaimAll, ClearAll;
    var rows := BatchRows(p, batch, supply);
    if rows.Some? {
      var q := p.(targets := ClaimAll(p.targets, batch, now), entries := InsertRows(env, p.entries, rows.value));
      ClaimedThenCleared(p.targets, batch, now);
      FulfillListedFrame(env, q, batch, WaitingScopes(q, batch));
    }
  }

  lemma ClaimedThenCleared(targets: seq<Target>, batch: seq<nat>, now: int)
    ensures |ClaimAll(targets, batch, now)| == |targets|
    ensures ClearAll(ClaimAll(targets, batch, now), batch) == ClearAll(targets, batch)
  {
  }

  lemma BatchIsLocked(p: Pool, requested: seq<nat>, batch: seq<nat>, staleBefore: int)
    requires Unowned(p, requested, staleBefore) && batch == LockedBatch(p.targets, set i | i in requested, |p.targets|)
    ensures forall i :: 0 <= i < |requested| ==> requested[i] in batch
    ensures forall i :: 0 <= i < |batch| ==> batch[i] < |p.targets| && !Owned(p.targets[batch[i]], staleBefore)
  {
    hide Owned, LockedBatch;
    forall i | 0 <= i < |batch| ensures !Owned(p.targets[batch[i]], staleBefore) {
      var j :| 0 <= j < |requested| && requested[j] == batch[i];
    }
  }

  /** The tables of a claimed and filled batch. */
  function Filled(env: Env, p: Pool, batch: seq<nat>, rows: seq<Row>, now: int): Pool {
    p.(targets := ClaimAll(p.targets, batch, now), entries := InsertRows(env, p.entries, rows))
  }

  lemma ClaimedIsPadded(p: Pool, batch: seq<nat>, now: int, extra: seq<Entry>)
    ensures Padded(p, p.(targets := ClaimAll(p.targets, batch, now), entries := p.entries + extra), extra)
  {
  }

  lemma EligibleIsDistinct(p: Pool, ts: seq<nat>)
    requires Eligible(p, ts)
    ensures forall a, b | 0 <= a < b < |ts| :: ts[a] != ts[b]
  {
  }

  lemma FilledIsAhead(env: Env, p: Pool, batch: seq<nat>, supply: Supply, now: int)
    requires Eligible(p, batch) && FreshSupply(env, p, batch, supply) && Generous(p, supply)
    requires BatchSupplied(p, batch, supply) && BatchRows(p, batch, supply).Some?
    ensures BatchAhead(env, p, Filled(env, p, batch, BatchRows(p, batch, supply).value, now), batch, supply)
  {
    var rows := BatchRows(p, batch, supply).value;
    hide *;
    EligibleIsDistinct(p, batch);
    BatchRowsFromSupply(env, p, batch, supply);
    FreshRowsAreNew(env, p, batch, supply, rows);
    NewRowsAppend(env, p.entries, rows);
    ClaimedIsPadded(p, batch, now, NewEntries(env, rows));
    AheadWhenPadded(env, p, batch, supply, rows, now);
  }

  lemma AheadWhenPadded(env: Env, p: Pool, batch: seq<nat>, supply: Supply, rows: seq<Row>, now: int)
    requires Eligible(p, batch) && FreshSupply(env, p, batch, supply) && Generous(p, supply)
    requires BatchSupplied(p, batch, supply) && BatchRows(p, batch, supply) == Some(rows)
    requires InsertRows(env, p.entries, rows) == p.entries + NewEntries(env, rows)
    requires Padded(p, p.(targets := ClaimAll(p.targets, batch, now), entries := p.entries + NewEntries(env, rows)), NewEntries(env, rows))
    ensures BatchAhead(env, p, Filled(env, p, batch, rows, now), batch, supply)
  {
    hide Eligible, FreshSupply, Generous, BatchSupplied, BatchRows, InsertRows, NewEntries, Padded, ClaimAll;
  }

  lemma ListedEqualsInTurn(env: Env, p: Pool, batch: seq<nat>, supply: Supply, now: int)
    requires Eligible(p, batch) && FreshSupply(env, p, batch, supply) && Generous(p, supply)
    requires BatchSupplied(p, batch, supply) && BatchRows(p, batch, supply).Some?
    ensures var q := Filled(env, p, batch, BatchRows(p, batch, supply).value, now);
            && (forall i :: 0 <= i < |batch| ==> batch[i] < |p.targets| && batch[i] < |q.targets|)
            && var a, b := InTurn(env, p, batch, supply), FulfillListed(env, q, batch, WaitingScopes(q, batch));
               a.Some? == b.Some? && (a.Some? ==> a.value == b.value.(targets := ClearAll(p.targets, batch)))
  {
    var q := Filled(env, p, batch, BatchRows(p, batch, supply).value, now);
    assert |q.targets| == |p.targets|;
    hide *;
    FilledIsAhead(env, p, batch, supply, now);
    FilledBatchEqualsInTurn(env, p, q, batch, supply);
    WaitingScopesCover(q, batch);
    GuardChangesNothing(env, q, batch, WaitingScopes(q, batch));
  }

  /** One transaction of the bulk prefill equals the refills of its targets in turn. */
  lemma BatchEqualsInTurn(env: Env, p: Pool, requested: seq<nat>, supply: Supply, now: int, staleBefore: int)
    requires UniqueScopes(p.targets) && Generous(p, supply) && Unowned(p, requested, staleBefore)
    requires FreshSupply(env, p, requested, supply)
    ensures var batch := LockedBatch(p.targets, set i | i in requested, |p.targets|);
            FillBatch(env, p, requested, supply, now, staleBefore) == InTurn(env, p, batch, supply)
  {
    hide FillBatch, FreshSupply, Generous, Unowned, InTurn, BatchRows, FulfillListed, ClearAll, Filled, WaitingScopes;
    var batch := LockedBatch(p.targets, set i | i in requested, |p.targets|);
    hide LockedBatch;
    assert Eligible(p, batch);
    FillBatchProceeds(env, p, requested, supply, now, staleBefore);
    FreshSupplyOfSome(env, p, requested, batch, supply);
    hide *;
    if BatchRows(p, batch, supply).None? {
      MissingRowsRaise(env, p, batch, supply);
    } else {
      ListedEqualsInTurn(env, p, batch, supply, now);
    }
  }

  lemma FreshSupplyOfSome(env: Env, p: Pool, ts: seq<nat>, us: seq<nat>, supply: Supply)
    requires FreshSupply(env, p, ts, supply) && forall a :: 0 <= a < |us| ==> us[a] in ts
    ensures FreshSupply(env, p, us, supply)
  {
    forall a | 0 <= a < |us| ensures exists b :: 0 <= b < |ts| && ts[b] == us[a] {}
  }

  // ------------------------------------------------------------------ the whole bulk prefill

  lemma ClearedShape(a: seq<Target>, batch: seq<nat>, now: int)
    ensures SameShape(a, ClearAll(ClaimAll(a, batch, now), batch))
    ensures forall t | 0 <= t < |a| :: ClearAll(ClaimAll(a, batch, now), batch)[t].targetCount == a[t].targetCount
  {
  }

  lemma FillBatchEnds(env: Env, p: Pool, requested: seq<nat>, supply: Supply, now: int, staleBefore: int)
    requires Generous(p, supply)
    ensures var r := FillBatch(env, p, requested, supply, now, staleBefore);
            var batch := LockedBatch(p.targets, set i | i in requested, |p.targets|);
            r.Some? ==> r.value.targets == ClearAll(ClaimAll(p.targets, batch, now), batch)
  {
    var batch := LockedBatch(p.targets, set i | i in requested, |p.targets|);
    GenerousSupplies(p, batch, supply);
    assert |ClaimAll(p.targets, batch, now)| == |p.targets|;
    hide LockedBatch, InsertRows, WaitingScopes, BatchRows, FulfillListed, ClaimAll, ClearAll, Owned, BatchSupplied, Generous;
    var rows := BatchRows(p, batch, supply);
    if rows.Some? {
      var q := Filled(env, p, batch, rows.value, now);
      FulfillListedFrame(env, q, batch, WaitingScopes(q, batch));
    }
  }

  lemma FillBatchTargets(env: Env, p: Pool, requested: seq<nat>, supply: Supply, now: int, staleBefore: int)
    requires Generous(p, supply)
    ensures var r := FillBatch(env, p, requested, supply, now, staleBefore);
            r.Some? ==> SameShape(p.targets, r.value.targets) && Generous(r.value, supply)
  {
    FillBatchEnds(env, p, requested, supply, now, staleBefore);
    ClearedShape(p.targets, LockedBatch(p.targets, set i | i in requested, |p.targets|), now);
    hide FillBatch, ClearAll, ClaimAll, LockedBatch;
  }

  /** `fill_targets_direct`: batch after batch of `size` targets, up to the first that raises. */
  function FillDirect(env: Env, p: Pool, targets: seq<nat>, size: nat, supply: Supply, now: int, staleBefore: int): (Pool, bool)
    requires size > 0 && Generous(p, supply)
    decreases |targets|
  {
    if targets == [] then (p, true)
    else
      FillBatchTargets(env, p, Take(targets, size), supply, now, staleBefore);
      match FillBatch(env, p, Take(targets, size), supply, now, staleBefore)
      case None => (p, false)
      case Some(q) => FillDirect(env, q, targets[|Take(targets, size)|..], size, supply, now, staleBefore)
  }

  /** Lines in stock for some targets together. */
  function StockOf(es: seq<Entry>, ts: seq<nat>): nat {
    |Stock(es, set t | t in ts, |es|)|
  }

  /** What a batch reports as created: its stock once the rows are written, less what it found. */
  function BatchCreated(env: Env, p: Pool, requested: seq<nat>, supply: Supply): nat
    requires Generous(p, supply)
  {
    var batch := LockedBatch(p.targets, set i | i in requested, |p.targets|);
    GenerousSupplies(p, batch, supply);
    var rows := BatchRows(p, batch, supply);
    if rows.None? then 0 else Max(0, StockOf(InsertRows(env, p.entries, rows.value), batch) - StockOf(p.entries, batch))
  }

  /** What `fill_targets_direct` returns when it completes. */
  function DirectCreated(env: Env, p: Pool, targets: seq<nat>, size: nat, supply: Supply, now: int, staleBefore: int): nat
    requires size > 0 && Generous(p, supply)
    decreases |targets|
  {
    if targets == [] then 0
    else
      FillBatchTargets(env, p, Take(targets, size), supply, now, staleBefore);
      match FillBatch(env, p, Take(targets, size), supply, now, staleBefore)
      case None => 0
      case Some(q) =>
        BatchCreated(env, p, Take(targets, size), supply) +
        DirectCreated(env, q, targets[|Take(targets, size)|..], size, supply, now, staleBefore)
  }

  /** The order in which the batches process the targets. */
  function ProcessingOrder(rows: seq<Target>, targets: seq<nat>, size: nat): seq<nat>
    requires size > 0
    decreases |targets|
  {
    if targets == [] then []
    else
      LockedBatch(rows, set i | i in Take(targets, size), |rows|) + ProcessingOrder(rows, targets[|Take(targets, size)|..], size)
  }

  lemma {:induction false} InTurnChunks(env: Env, p: Pool, a: seq<nat>, b: seq<nat>, supply: Supply)
    requires Generous(p, supply)
    ensures var r := InTurn(env, p, a, supply);
            r.Some? ==> Generous(r.value, supply) && InTurn(env, p, a + b, supply) == InTurn(env, r.value, b, supply)
    ensures InTurn(env, p, a, supply).None? ==> InTurn(env, p, a + b, supply).None?
    decreases |a|
  {
    if a == [] {
      assert a + b == b;
    } else {
      assert (a + b)[0] == a[0] && (a + b)[1..] == a[1..] + b;
      RefillFrame(env, p, a[0], supply(a[0]));
      var o := Refill(env, p, a[0], supply(a[0]));
      if o.Done? {
        InTurnChunks(env, o.pool, a[1..], b, supply);
      }
    }
  }

  /** Refilling some targets in turn keeps the lines of the others fresh and their claims as they were. */
  lemma {:induction false} InTurnKeepsFresh(env: Env, p: Pool, ts: seq<nat>, later: seq<nat>, supply: Supply)
    requires Eligible(p, ts + later) && FreshSupply(env, p, ts + later, supply) && Generous(p, supply)
    ensures var r := InTurn(env, p, ts, supply);
            r.Some? ==>
              && Eligible(r.value, later) && FreshSupply(env, r.value, later, supply)
              && SameShape(p.targets, r.value.targets)
              && forall u :: 0 <= u < |p.targets| && u !in ts ==> r.value.targets[u] == p.targets[u]
    decreases |ts|
  {
    if ts == [] {
      assert ts + later == later;
    } else {
      assert (ts + later)[0] == ts[0] && (ts + later)[1..] == ts[1..] + later;
      assert ts[0] < |p.targets|;
      hide *;
      RefillKeepsFresh(env, p, ts + later, supply);
      InTurnUnfolds(env, p, ts, supply);
      var a := Refill(env, p, ts[0], supply(ts[0]));
      if a.Done? {
        InTurnKeepsFresh(env, a.pool, ts[1..], later, supply);
        var r := InTurn(env, p, ts, supply);
        if r.Some? {
          ShapeAfterClearing(p.targets, r.value.targets, ts);
        }
      }
    }
  }

  lemma ShapeAfterClearing(a: seq<Target>, b: seq<Target>, ts: seq<nat>)
    requires ts != [] && ts[0] < |a| && SameShape(ClearClaim(a, ts[0]), b)
    requires forall u :: 0 <= u < |a| && u !in ts[1..] ==> b[u] == ClearClaim(a, ts[0])[u]
    ensures SameShape(a, b) && forall u :: 0 <= u < |a| && u !in ts ==> b[u] == a[u]
  {
    forall u | 0 <= u < |a| && u !in ts ensures b[u] == a[u] {
      assert u !in ts[1..] && u != ts[0];
    }
  }

  lemma {:induction false} LockedBatchAgrees(a: seq<Target>, b: seq<Target>, wanted: set<nat>, n: nat)
    requires SameShape(a, b) && n <= |a|
    ensures LockedBatch(a, wanted, n) == LockedBatch(b, wanted, n)
  {
    if n > 0 {
      LockedBatchAgrees(a, b, wanted, n - 1);
    }
  }

  lemma {:induction false} OrderAgrees(a: seq<Target>, b: seq<Target>, targets: seq<nat>, size: nat)
    requires size > 0 && SameShape(a, b)
    ensures ProcessingOrder(a, targets, size) == ProcessingOrder(b, targets, size)
    decreases |targets|
  {
    if targets != [] {
      LockedBatchAgrees(a, b, set i | i in Take(targets, size), |a|);
      OrderAgrees(a, b, targets[|Take(targets, size)|..], size);
    }
  }

  /** What a batch leaves to the batches after it. */
  ghost predicate LeavesRest(p: Pool, r: Option<Pool>, rest: seq<nat>, env: Env, supply: Supply, staleBefore: int) {
    r.Some? ==>
      && Generous(r.value, supply) && SameShape(p.targets, r.value.targets)
      && Eligible(r.value, rest) && FreshSupply(env, r.value, rest, supply) && Unowned(r.value, rest, staleBefore)
  }

  /** The first batch equals its refills in turn and leaves the rest as it found it. */
  lemma FirstBatchCore(env: Env, p: Pool, chunk: seq<nat>, rest: seq<nat>, batch: seq<nat>, supply: Supply, now: int, staleBefore: int)
    requires Generous(p, supply) && Unowned(p, chunk, staleBefore) && Unowned(p, rest, staleBefore) && UniqueScopes(p.targets)
    requires batch == LockedBatch(p.targets, set i | i in chunk, |p.targets|)
    requires forall a :: 0 <= a < |rest| ==> rest[a] !in batch
    requires FreshSupply(env, p, chunk, supply)
    requires Eligible(p, batch + rest) && FreshSupply(env, p, batch + rest, supply)
    ensures FillBatch(env, p, chunk, supply, now, staleBefore) == InTurn(env, p, batch, supply)
    ensures LeavesRest(p, FillBatch(env, p, chunk, supply, now, staleBefore), rest, env, supply, staleBefore)
  {
    hide FreshSupply, Eligible, FillBatch, LockedBatch, InTurn, UniqueScopes, Generous;
    BatchEqualsInTurn(env, p, chunk, supply, now, staleBefore);
    FillBatchTargets(env, p, chunk, supply, now, staleBefore);
    InTurnKeepsFresh(env, p, batch, rest, supply);
  }

  lemma FirstBatch(env: Env, p: Pool, chunk: seq<nat>, rest: seq<nat>, supply: Supply, now: int, staleBefore: int)
    requires Generous(p, supply) && Unowned(p, chunk + rest, staleBefore)
    requires Eligible(p, chunk + rest) && FreshSupply(env, p, chunk + rest, supply)
    ensures FillBatch(env, p, chunk, supply, now, staleBefore) ==
              InTurn(env, p, LockedBatch(p.targets, set i | i in chunk, |p.targets|), supply)
    ensures LeavesRest(p, FillBatch(env, p, chunk, supply, now, staleBefore), rest, env, supply, staleBefore)
  {
    var batch := LockedBatch(p.targets, set i | i in chunk, |p.targets|);
    assert forall a :: 0 <= a < |chunk| ==> (chunk + rest)[a] == chunk[a];
    assert forall a :: 0 <= a < |rest| ==> (chunk + rest)[|chunk| + a] == rest[a];
    assert Unowned(p, chunk, staleBefore) && Unowned(p, rest, staleBefore);
    hide FillBatch, InTurn;
    BatchIsDistinct(p, chunk, rest, batch);
    FreshSupplyOfSome(env, p, chunk + rest, chunk, supply);
    FreshSupplyOfSome(env, p, chunk + rest, batch + rest, supply);
    FirstBatchCore(env, p, chunk, rest, batch, supply, now, staleBefore);
  }

  /** For distinct, active and unowned targets with fresh lines, the bulk prefill succeeds
      exactly when the one-target refills run in turn do, and it ends in the same tables. */
  lemma {:induction false} PrefillEqualsRefillsInTurn(env: Env, p: Pool, targets: seq<nat>, size: nat, supply: Supply,
                                                      now: int, staleBefore: int)
    requires size > 0 && Generous(p, supply) && Unowned(p, targets, staleBefore)
    requires Eligible(p, targets) && FreshSupply(env, p, targets, supply)
    ensures var order := ProcessingOrder(p.targets, targets, size);
            var (q, completed) := FillDirect(env, p, targets, size, supply, now, staleBefore);
            completed == InTurn(env, p, order, supply).Some? &&
            (completed ==> q == InTurn(env, p, order, supply).value)
    decreases |targets|
  {
    hide *;
    if targets == [] {
      NothingToFill(env, p, size, supply, now, staleBefore);
    } else {
      var chunk, rest := FirstBatchOf(targets, size);
      var batch := LockedBatch(p.targets, set i | i in chunk, |p.targets|);
      FirstBatch(env, p, chunk, rest, supply, now, staleBefore);
      DirectUnfolds(env, p, targets, chunk, rest, size, supply, now, staleBefore);
      OrderUnfolds(p.targets, targets, chunk, rest, size);
      InTurnChunks(env, p, batch, ProcessingOrder(p.targets, rest, size), supply);
      var r := FillBatch(env, p, chunk, supply, now, staleBefore);
      if r.Some? {
        UnfoldLeaves(p, r.value, rest, env, supply, staleBefore);
        OrderAgrees(p.targets, r.value.targets, rest, size);
        PrefillEqualsRefillsInTurn(env, r.value, rest, size, supply, now, staleBefore);
      }
    }
  }

  lemma FirstBatchOf(targets: seq<nat>, size: nat) returns (chunk: seq<nat>, rest: seq<nat>)
    requires size > 0 && targets != []
    ensures chunk == Take(targets, size) && chunk != [] && rest == targets[|chunk|..] && targets == chunk + rest
  {
    chunk, rest := Take(targets, size), targets[|Take(targets, size)|..];
  }

  lemma NothingToFill(env: Env, p: Pool, size: nat, supply: Supply, now: int, staleBefore: int)
    requires size > 0 && Generous(p, supply)
    ensures FillDirect(env, p, [], size, supply, now, staleBefore) == (p, true)
    ensures ProcessingOrder(p.targets, [], size) == [] && InTurn(env, p, [], supply) == Some(p)
  {
  }

  lemma DirectUnfolds(env: Env, p: Pool, targets: seq<nat>, chunk: seq<nat>, rest: seq<nat>, size: nat, supply: Supply, now: int, staleBefore: int)
    requires size > 0 && Generous(p, supply) && targets != [] && chunk == Take(targets, size) && rest == targets[|chunk|..]
    ensures var r := FillBatch(env, p, chunk, supply, now, staleBefore);
            var whole := FillDirect(env, p, targets, size, supply, now, staleBefore);
            if r.None? then whole == (p, false)
            else Generous(r.value, supply) && whole == FillDirect(env, r.value, rest, size, supply, now, staleBefore)
  {
    FillBatchTargets(env, p, chunk, supply, now, staleBefore);
    hide FillBatch, Generous;
  }

  lemma OrderUnfolds(rows: seq<Target>, targets: seq<nat>, chunk: seq<nat>, rest: seq<nat>, size: nat)
    requires size > 0 && targets != [] && chunk == Take(targets, size) && rest == targets[|chunk|..]
    ensures ProcessingOrder(rows, targets, size) == LockedBatch(rows, set i | i in chunk, |rows|) + ProcessingOrder(rows, rest, size)
  {
    hide LockedBatch;
  }

  lemma UnfoldLeaves(p: Pool, q: Pool, rest: seq<nat>, env: Env, supply: Supply, staleBefore: int)
    requires LeavesRest(p, Some(q), rest, env, supply, staleBefore)
    ensures Generous(q, supply) && SameShape(p.targets, q.targets)
    ensures Eligible(q, rest) && FreshSupply(env, q, rest, supply) && Unowned(q, rest, staleBefore)
  {
    hide Generous, FreshSupply, Eligible, Unowned, SameShape;
  }

  lemma BatchIsDistinct(p: Pool, chunk: seq<nat>, rest: seq<nat>, batch: seq<nat>)
    requires Eligible(p, chunk + rest) && batch == LockedBatch(p.targets, set i | i in chunk, |p.targets|)
    ensures Eligible(p, batch + rest)
    ensures forall a :: 0 <= a < |rest| ==> rest[a] !in batch
  {
    assert forall a :: 0 <= a < |chunk| ==> (chunk + rest)[a] == chunk[a];
    assert forall a :: 0 <= a < |rest| ==> (chunk + rest)[|chunk| + a] == rest[a];
  }

  /** When the targets come in key order, every batch size processes them in that order. */
  lemma {:induction false} KeyOrderIsKept(rows: seq<Target>, targets: seq<nat>, size: nat)
    requires size > 0 && forall a, b :: 0 <= a < b < |targets| ==> targets[a] < targets[b]
    requires forall a :: 0 <= a < |targets| ==> targets[a] < |rows| && rows[targets[a]].active
    ensures ProcessingOrder(rows, targets, size) == targets
    decreases |targets|
  {
    if targets != [] {
      var chunk, rest := Take(targets, size), targets[|Take(targets, size)|..];
      assert targets == chunk + rest;
      ChunkIsItsBatch(rows, chunk);
      hide LockedBatch;
      KeyOrderIsKept(rows, rest, size);
    }
  }

  lemma ChunkIsItsBatch(rows: seq<Target>, chunk: seq<nat>)
    requires forall a, b :: 0 <= a < b < |chunk| ==> chunk[a] < chunk[b]
    requires forall a :: 0 <= a < |chunk| ==> chunk[a] < |rows| && rows[chunk[a]].active
    ensures LockedBatch(rows, set i | i in chunk, |rows|) == chunk
  {
    var batch := LockedBatch(rows, set i | i in chunk, |rows|);
    hide LockedBatch;
    forall x: nat | x in chunk ensures x in batch {
      var i :| 0 <= i < |chunk| && chunk[i] == x;
      assert x < |rows| && rows[x].active && x in set i | i in chunk;
    }
    forall x: nat | x in batch ensures x in chunk {
      var i :| 0 <= i < |batch| && batch[i] == x;
    }
    hide *;
    IncreasingIsUnique(batch, chunk);
  }

  lemma {:induction false} IncreasingIsUnique(a: seq<nat>, b: seq<nat>)
    requires forall i, j :: 0 <= i < j < |a| ==> a[i] < a[j]
    requires forall i, j :: 0 <= i < j < |b| ==> b[i] < b[j]
    requires forall x :: x in a <==> x in b
    ensures a == b
    decreases |a|
  {
    assert b != [] ==> b[0] in a;
    if a != [] {
      assert a[0] in b && (b != [] ==> b[0] in a);
      assert a[0] == b[0];
      forall x | x in a[1..] ensures x in b[1..] {
        assert x in b;
      }
      forall x | x in b[1..] ensures x in a[1..] {
        assert x in a;
      }
      IncreasingIsUnique(a[1..], b[1..]);
      assert a == [a[0]] + a[1..] && b == [b[0]] + b[1..];
    }
  }

  /** So targets in key order end in the very same tables whatever the batch size. */
  lemma KeyOrderHidesTheSize(env: Env, p: Pool, targets: seq<nat>, size: nat, other: nat, supply: Supply, now: int, staleBefore: int)
    requires size > 0 && other > 0 && Generous(p, supply) && Unowned(p, targets, staleBefore)
    requires Eligible(p, targets) && FreshSupply(env, p, targets, supply)
    requires forall a, b :: 0 <= a < b < |targets| ==> targets[a] < targets[b]
    ensures var (q, completed) := FillDirect(env, p, targets, size, supply, now, staleBefore);
            var (r, finished) := FillDirect(env, p, targets, other, supply, now, staleBefore);
            completed == finished && (completed ==> q == r)
  {
    PrefillEqualsRefillsInTurn(env, p, targets, size, supply, now, staleBefore);
    PrefillEqualsRefillsInTurn(env, p, targets, other, supply, now, staleBefore);
    KeyOrderIsKept(p.targets, targets, size);
    KeyOrderIsKept(p.targets, targets, other);
  }

  /** A batch with a target that is missing, switched off or owned by another refill is left
      alone, and the prefill stops there. */
  lemma OwnedBatchIsUntouched(env: Env, p: Pool, targets: seq<nat>, size: nat, supply: Supply, now: int, staleBefore: int)
    requires size > 0 && targets != [] && Generous(p, supply)
    requires !Unowned(p, Take(targets, size), staleBefore)
    ensures FillDirect(env, p, targets, size, supply, now, staleBefore) == (p, false)
  {
    var requested := Take(targets, size);
    var batch := LockedBatch(p.targets, set i | i in requested, |p.targets|);
    var i :| 0 <= i < |requested| && !(requested[i] < |p.targets| && p.targets[requested[i]].active && !Owned(p.targets[requested[i]], staleBefore));
    if requested[i] in batch {
      var b :| 0 <= b < |batch| && batch[b] == requested[i];
      assert Owned(p.targets[batch[b]], staleBefore);
    }
  }

  lemma CommittedIsLocked(env: Env, p: Pool, requested: seq<nat>, supply: Supply, now: int, staleBefore: int)
    requires Generous(p, supply) && FillBatch(env, p, requested, supply, now, staleBefore).Some?
    ensures var batch := LockedBatch(p.targets, set i | i in requested, |p.targets|);
            && (forall i :: 0 <= i < |requested| ==> requested[i] in batch)
            && (forall i :: 0 <= i < |batch| ==> !Owned(p.targets[batch[i]], staleBefore))
  {
    FillBatchUnfolds(env, p, requested, supply, now, staleBefore);
    hide FillBatch, BatchRows, FulfillListed, InsertRows, WaitingScopes, Generous, Owned, LockedBatch, BatchSupplied, ClaimAll, ClearAll;
  }

  lemma LockedAreActive(p: Pool, requested: seq<nat>, staleBefore: int)
    requires var batch := LockedBatch(p.targets, set i | i in requested, |p.targets|);
             && (forall i :: 0 <= i < |requested| ==> requested[i] in batch)
             && (forall i :: 0 <= i < |batch| ==> !Owned(p.targets[batch[i]], staleBefore))
    ensures Unowned(p, requested, staleBefore)
  {
    var batch := LockedBatch(p.targets, set i | i in requested, |p.targets|);
    hide LockedBatch, Owned;
    forall i | 0 <= i < |requested|
      ensures requested[i] < |p.targets| && p.targets[requested[i]].active && !Owned(p.targets[requested[i]], staleBefore)
    {
      var b :| 0 <= b < |batch| && batch[b] == requested[i];
    }
  }

  /** A batch that is committed had only active, unowned targets, and leaves all others alone. */
  lemma CommittedBatch(env: Env, p: Pool, requested: seq<nat>, supply: Supply, now: int, staleBefore: int)
    requires Generous(p, supply)
    ensures var r := FillBatch(env, p, requested, supply, now, staleBefore);
            r.Some? ==>
              && Unowned(p, requested, staleBefore) && |r.value.targets| == |p.targets|
              && forall t: nat | t < |p.targets| && t !in requested :: r.value.targets[t] == p.targets[t]
  {
    hide FillBatch, Generous, Owned, LockedBatch, Unowned;
    var batch := LockedBatch(p.targets, set i | i in requested, |p.targets|);
    if FillBatch(env, p, requested, supply, now, staleBefore).Some? {
      FillBatchEnds(env, p, requested, supply, now, staleBefore);
      CommittedIsLocked(env, p, requested, supply, now, staleBefore);
      LockedAreActive(p, requested, staleBefore);
      forall t: nat | t in batch ensures t in requested {
        var b :| 0 <= b < |batch| && batch[b] == t;
      }
    }
  }

  lemma UnownedBefore(p: Pool, q: Pool, chunk: seq<nat>, rest: seq<nat>, staleBefore: int)
    requires Unowned(p, chunk, staleBefore) && Unowned(q, rest, staleBefore) && |q.targets| == |p.targets|
    requires forall t: nat | t < |p.targets| && t !in chunk :: q.targets[t] == p.targets[t]
    ensures Unowned(p, chunk + rest, staleBefore)
  {
    forall i | 0 <= i < |chunk + rest|
      ensures (chunk + rest)[i] < |p.targets| && p.targets[(chunk + rest)[i]].active && !Owned(p.targets[(chunk + rest)[i]], staleBefore)
    {
      var t := (chunk + rest)[i];
      if t in chunk {
        var j :| 0 <= j < |chunk| && chunk[j] == t;
      } else {
        assert rest[i - |chunk|] == t;
      }
    }
  }

  /** A prefill completes only when every one of its targets was there, active and unowned: one
      owned target anywhere in the list stops it. */
  lemma {:induction false} CompletionNeedsUnowned(env: Env, p: Pool, targets: seq<nat>, size: nat, supply: Supply, now: int, staleBefore: int)
    requires size > 0 && Generous(p, supply)
    ensures FillDirect(env, p, targets, size, supply, now, staleBefore).1 ==> Unowned(p, targets, staleBefore)
    decreases |targets|
  {
    if targets != [] {
      var chunk, rest := Take(targets, size), targets[|Take(targets, size)|..];
      assert targets == chunk + rest;
      if !Unowned(p, chunk, staleBefore) {
        OwnedBatchIsUntouched(env, p, targets, size, supply, now, staleBefore);
      } else {
        hide FillBatch, Unowned;
        CommittedBatch(env, p, chunk, supply, now, staleBefore);
        FillBatchTargets(env, p, chunk, supply, now, staleBefore);
        var r := FillBatch(env, p, chunk, supply, now, staleBefore);
        if r.Some? {
          CompletionNeedsUnowned(env, r.value, rest, size, supply, now, staleBefore);
          if FillDirect(env, p, targets, size, supply, now, staleBefore).1 {
            UnownedBefore(p, r.value, chunk, rest, staleBefore);
          }
        }
      }
    }
  }

  /** An active target is owned exactly when no refill can be queued for it. */
  lemma OwnedIsNotClaimable(targets: seq<Target>, t: nat, now: int, staleBefore: int)
    requires t < |targets| && targets[t].active
    ensures Owned(targets[t], staleBefore) <==> !QueueRefill(targets, t, now, staleBefore, true).1
  {
  }

  /** A target with a fresh refill claim is left to that refill: no other claim is taken, and no
      prefill whose list holds it completes until the claim goes stale. */
  lemma ClaimExcludes(env: Env, p: Pool, t: nat, now: int, stale: int, targets: seq<nat>, size: nat, supply: Supply, later: int, staleBefore: int)
    requires t < |p.targets| && size > 0 && Generous(p, supply) && t in targets && staleBefore < now
    ensures var (claimed, taken) := QueueRefill(p.targets, t, now, stale, true);
            var q := p.(targets := claimed);
            taken ==>
              && Generous(q, supply)
              && !QueueRefill(claimed, t, later, staleBefore, true).1
              && !FillDirect(env, q, targets, size, supply, later, staleBefore).1
  {
    var (claimed, taken) := QueueRefill(p.targets, t, now, stale, true);
    var q := p.(targets := claimed);
    if taken {
      assert Generous(q, supply);
      CompletionNeedsUnowned(env, q, targets, size, supply, later, staleBefore);
      OwnedIsNotClaimable(claimed, t, later, staleBefore);
      var i :| 0 <= i < |targets| && targets[i] == t;
      hide FillDirect, Generous;
    }
  }
}
