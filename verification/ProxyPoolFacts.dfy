/** How the stock of a target and the count of a job react to single changes of the tables. */
module ProxyPoolFacts {
  import opened Wrappers
  import opened ProxyPool

  lemma {:induction false} StockComplete(es: seq<Entry>, ts: set<nat>, n: nat)
    requires n <= |es|
    ensures forall i: nat :: i in Stock(es, ts, n) <==> i < n && InStock(es[i], ts)
    ensures forall j, k :: 0 <= j < k < |Stock(es, ts, n)| ==> Stock(es, ts, n)[j] < Stock(es, ts, n)[k]
  {
    if n > 0 {
      StockComplete(es, ts, n - 1);
      StockInRange(es, ts, n - 1);
    }
  }

  /** Only membership in the stock matters. */
  lemma {:induction false} StockAgrees(es: seq<Entry>, fs: seq<Entry>, ts: set<nat>, us: set<nat>, n: nat)
    requires n <= |es| && n <= |fs|
    requires forall i :: 0 <= i < n ==> InStock(es[i], ts) == InStock(fs[i], us)
    ensures Stock(es, ts, n) == Stock(fs, us, n)
  {
    if n > 0 {
      StockAgrees(es, fs, ts, us, n - 1);
    }
  }

  lemma StockAppends(es: seq<Entry>, e: Entry, ts: set<nat>)
    ensures Stock(es + [e], ts, |es| + 1) == Stock(es, ts, |es|) + (if InStock(e, ts) then [|es|] else [])
  {
    StockAgrees(es, es + [e], ts, ts, |es|);
  }

  /** Taking the oldest entry out of stock leaves the rest of the stock in order. */
  lemma {:induction false} StockLosesFirst(es: seq<Entry>, ts: set<nat>, e: Entry, n: nat)
    requires n <= |es| && Stock(es, ts, n) != [] && !InStock(e, ts)
    ensures Stock(es, ts, n)[0] < |es|
    ensures Stock(es[Stock(es, ts, n)[0] := e], ts, n) == Stock(es, ts, n)[1..]
  {
    StockInRange(es, ts, n);
    var id := Stock(es, ts, n)[0];
    if Stock(es, ts, n - 1) == [] {
      StockComplete(es, ts, n - 1);
      StockAgrees(es, es[id := e], ts, ts, n - 1);
    } else {
      StockLosesFirst(es, ts, e, n - 1);
      var before := Stock(es, ts, n - 1);
      var last := if InStock(es[n - 1], ts) then [n - 1] else [];
      StockInRange(es, ts, n - 1);
      assert before[0] == id && id < n - 1;
      assert (before + last)[1..] == before[1..] + last;
    }
  }

  lemma CountAppends(rs: seq<Reservation>, r: Reservation, job: nat)
    ensures CountFor(rs + [r], job) == CountFor(rs, job) + (if r.job == job then 1 else 0)
  {
    assert (rs + [r])[..|rs|] == rs;
  }

  lemma {:induction false} CountZero(rs: seq<Reservation>, job: nat)
    requires forall k :: 0 <= k < |rs| ==> rs[k].job != job
    ensures CountFor(rs, job) == 0
  {
    if rs != [] {
      CountZero(rs[..|rs| - 1], job);
    }
  }

  lemma {:induction false} UnfinishedComplete(jobs: seq<Job>, scope: Scope, n: nat)
    requires n <= |jobs|
    ensures forall i: nat :: i in UnfinishedJobs(jobs, scope, n) <==> i < n && Unfinished(jobs[i], scope)
    ensures forall j, k :: 0 <= j < k < |UnfinishedJobs(jobs, scope, n)| ==>
              UnfinishedJobs(jobs, scope, n)[j] < UnfinishedJobs(jobs, scope, n)[k]
  {
    if n > 0 {
      UnfinishedComplete(jobs, scope, n - 1);
      UnfinishedInRange(jobs, scope, n - 1);
    }
  }

  lemma {:induction false} UnfinishedAgrees(a: seq<Job>, b: seq<Job>, scope: Scope, n: nat)
    requires n <= |a| && n <= |b|
    requires forall i :: 0 <= i < n ==> Unfinished(a[i], scope) == Unfinished(b[i], scope)
    ensures UnfinishedJobs(a, scope, n) == UnfinishedJobs(b, scope, n)
  {
    if n > 0 {
      UnfinishedAgrees(a, b, scope, n - 1);
    }
  }

  ghost predicate UniqueScopes(targets: seq<Target>) {
    forall t, u :: 0 <= t < u < |targets| ==> targets[t].scope != targets[u].scope
  }

  /** With unique scopes, the stock open to a scope is the stock of its active target. */
  lemma OpenStockOfTarget(p: Pool, t: nat)
    requires UniqueScopes(p.targets) && t < |p.targets| && p.targets[t].active
    ensures ActiveTargets(p.targets, p.targets[t].scope) == {t}
    ensures OpenStock(p, p.targets[t].scope) == AvailableIds(p.entries, t)
  {
    forall u | u in ActiveTargets(p.targets, p.targets[t].scope) ensures u == t {
      assert !(u < t) && !(t < u);
    }
  }

  // ------------------------------------------------------------------ issuing

  /** `ids` are the oldest available entries of `ts`, in order. */
  ghost predicate Oldest(p: Pool, ts: set<nat>, ids: seq<nat>) {
    ids <= Stock(p.entries, ts, |p.entries|)
  }

  lemma IssueOneStock(env: Env, p: Pool, job: nat, ts: set<nat>)
    requires job < |p.jobs| && Stock(p.entries, ts, |p.entries|) != []
    ensures var id := Stock(p.entries, ts, |p.entries|)[0];
            && id < |p.entries| && p.entries[id].state == Available && p.entries[id].target in ts
            && var q := IssueOne(env, p, job, id);
               q.Some? ==>
                 && q.value.jobs == p.jobs && q.value.targets == p.targets && |q.value.entries| == |p.entries|
                 && Stock(q.value.entries, ts, |p.entries|) == Stock(p.entries, ts, |p.entries|)[1..]
                 && |q.value.reservations| == |p.reservations| + 1
                 && q.value.reservations[|p.reservations|].job == job
                 && q.value.reservations[|p.reservations|].entry == Some(id)
                 && CountFor(q.value.reservations, job) == CountFor(p.reservations, job) + 1
  {
    StockInRange(p.entries, ts, |p.entries|);
    var id := Stock(p.entries, ts, |p.entries|)[0];
    var q := IssueOne(env, p, job, id);
    if q.Some? {
      StockLosesFirst(p.entries, ts, q.value.entries[id], |p.entries|);
      CountAppends(p.reservations, q.value.reservations[|p.reservations|], job);
      assert q.value.reservations == p.reservations + [q.value.reservations[|p.reservations|]];
    }
  }

  /** Issuing the oldest entries takes exactly those out of stock, for exactly that job. */
  lemma {:induction false} IssueAllStock(env: Env, p: Pool, job: nat, ts: set<nat>, ids: seq<nat>)
    requires job < |p.jobs| && Oldest(p, ts, ids)
    ensures forall i :: 0 <= i < |ids| ==> ids[i] < |p.entries|
    ensures var r := IssueAll(env, p, job, ids);
            r.Some? ==>
              && r.value.jobs == p.jobs && r.value.targets == p.targets && |r.value.entries| == |p.entries|
              && Stock(r.value.entries, ts, |p.entries|) == Stock(p.entries, ts, |p.entries|)[|ids|..]
              && CountFor(r.value.reservations, job) == CountFor(p.reservations, job) + |ids|
    decreases |ids|
  {
    StockInRange(p.entries, ts, |p.entries|);
    if ids != [] {
      IssueOneStock(env, p, job, ts);
      var r := IssueOne(env, p, job, ids[0]);
      if r.Some? {
        IssueAllStock(env, r.value, job, ts, ids[1..]);
      }
    }
  }

  predicate IssuedTo(x: Reservation, client: nat, job: nat, id: nat) {
    x.client == client && x.job == job && x.entry == Some(id)
  }

  /** The new reservations name the issued entries in order. */
  lemma {:induction false} IssueAllReservations(env: Env, p: Pool, job: nat, ids: seq<nat>)
    requires job < |p.jobs| && forall i :: 0 <= i < |ids| ==> ids[i] < |p.entries|
    ensures var r := IssueAll(env, p, job, ids);
            r.Some? ==>
              && |r.value.reservations| == |p.reservations| + |ids|
              && r.value.reservations[..|p.reservations|] == p.reservations
              && forall k :: 0 <= k < |ids| ==> IssuedTo(r.value.reservations[|p.reservations| + k], p.jobs[job].client, job, ids[k])
    decreases |ids|
  {
    if ids != [] {
      var r := IssueOne(env, p, job, ids[0]);
      if r.Some? {
        IssueAllReservations(env, r.value, job, ids[1..]);
        var q := IssueAll(env, p, job, ids);
        if q.Some? {
          var rs, n := q.value.reservations, |p.reservations|;
          assert rs[..n] == rs[..n + 1][..n] == p.reservations;
          forall k | 0 <= k < |ids| ensures IssuedTo(rs[n + k], p.jobs[job].client, job, ids[k]) {
            if k == 0 {
              assert rs[n] == rs[..n + 1][n] == r.value.reservations[n];
            } else {
              assert ids[k] == ids[1..][k - 1];
              assert IssuedTo(rs[n + 1 + (k - 1)], p.jobs[job].client, job, ids[1..][k - 1]);
            }
          }
        }
      }
    }
  }

  /** Counts of other jobs, and everything outside the issued rows, stay. */
  lemma {:induction false} IssueAllOthers(env: Env, p: Pool, job: nat, ids: seq<nat>, other: nat)
    requires job < |p.jobs| && other != job && forall i :: 0 <= i < |ids| ==> ids[i] < |p.entries|
    ensures var r := IssueAll(env, p, job, ids);
            r.Some? ==>
              && CountFor(r.value.reservations, other) == CountFor(p.reservations, other)
              && |r.value.entries| == |p.entries|
              && forall i :: 0 <= i < |p.entries| && i !in ids ==> r.value.entries[i] == p.entries[i]
    decreases |ids|
  {
    if ids != [] {
      var r := IssueOne(env, p, job, ids[0]);
      if r.Some? {
        CountAppends(p.reservations, r.value.reservations[|p.reservations|], other);
        IssueAllOthers(env, r.value, job, ids[1..], other);
      }
    }
  }
}
