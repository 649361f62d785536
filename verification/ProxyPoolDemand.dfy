/** Exactly when a fulfilment goes through, told from the tables before it. */
module ProxyPoolDemand {
  import opened Wrappers
  import opened Sequences
  import opened ProxyPool
  import opened ProxyPoolFacts
  import opened ProxyPoolFulfillment
  import opened ProxyPoolSound
  import opened ProxyPoolStock

  /** What some jobs lack together. */
  function Demand(p: Pool, js: seq<nat>): nat
    requires forall i :: 0 <= i < |js| ==> js[i] < |p.jobs|
    decreases |js|
  {
    if js == [] then 0 else Shortage(p, js[0]) + Demand(p, js[1..])
  }

  /** Rows of the stock that can be taken in order. */
  ghost predicate InTurnOfStock(p: Pool, ids: seq<nat>) {
    && (forall i :: 0 <= i < |ids| ==> ids[i] < |p.entries| && p.entries[ids[i]].state == Available)
    && (forall i, j :: 0 <= i < j < |ids| ==> ids[i] < ids[j])
  }

  predicate InRange(p: Pool, ids: seq<nat>) {
    forall i :: 0 <= i < |ids| ==> ids[i] < |p.entries|
  }

  lemma RangesJoin(p: Pool, a: seq<nat>, b: seq<nat>)
    ensures InRange(p, a + b) <==> InRange(p, a) && InRange(p, b)
  {
    if InRange(p, a + b) {
      assert forall i :: 0 <= i < |a| ==> (a + b)[i] == a[i];
      assert forall i :: 0 <= i < |b| ==> (a + b)[|a| + i] == b[i];
    }
  }

  lemma IssueAllSteps(env: Env, p: Pool, job: nat, ids: seq<nat>)
    requires job < |p.jobs| && ids != [] && InRange(p, ids)
    ensures InRange(p, ids[1..])
    ensures var r := IssueOne(env, p, job, ids[0]);
            if r.None? then IssueAll(env, p, job, ids).None?
            else job < |r.value.jobs| && |r.value.entries| == |p.entries| && IssueAll(env, p, job, ids) == IssueAll(env, r.value, job, ids[1..])
  {
  }

  lemma {:induction false} IssueAllAppends(env: Env, p: Pool, job: nat, a: seq<nat>, b: seq<nat>)
    requires job < |p.jobs| && InRange(p, a) && InRange(p, b)
    ensures InRange(p, a + b)
    ensures var r := IssueAll(env, p, job, a);
            if r.None? then IssueAll(env, p, job, a + b).None?
            else
              && job < |r.value.jobs| && InRange(r.value, b)
              && IssueAll(env, p, job, a + b) == IssueAll(env, r.value, job, b)
    decreases |a|
  {
    RangesJoin(p, a, b);
    if a == [] {
      assert a + b == b;
    } else {
      assert (a + b)[0] == a[0] && (a + b)[1..] == a[1..] + b;
      hide IssueOne, IssueAll;
      IssueAllSteps(env, p, job, a);
      IssueAllSteps(env, p, job, a + b);
      var r := IssueOne(env, p, job, a[0]);
      if r.Some? {
        IssueAllAppends(env, r.value, job, a[1..], b);
      }
    }
  }

  lemma StillInTurn(env: Env, p: Pool, job: nat, a: seq<nat>, b: seq<nat>)
    requires job < |p.jobs| && InTurnOfStock(p, a + b)
    ensures InTurnOfStock(p, a) && InTurnOfStock(p, b)
    ensures var r := IssueAll(env, p, job, a); r.Some? ==> InTurnOfStock(r.value, b)
  {
    assert forall i :: 0 <= i < |a| ==> (a + b)[i] == a[i];
    assert forall i :: 0 <= i < |b| ==> (a + b)[|a| + i] == b[i];
    IssueAllOthers(env, p, job, a, job + 1);
    forall i, j | 0 <= i < |b| && 0 <= j < |a| ensures a[j] != b[i] {
      assert (a + b)[j] < (a + b)[|a| + i];
    }
    hide IssueAll;
  }

  lemma InTurnInRange(p: Pool, ids: seq<nat>)
    requires InTurnOfStock(p, ids)
    ensures forall i :: 0 <= i < |ids| ==> ids[i] < |p.entries|
  {
  }

  /** Rows can be issued in one go exactly when the first ones can and then the others. */
  lemma IssuableSplits(env: Env, p: Pool, job: nat, a: seq<nat>, b: seq<nat>)
    requires Sound(env, p) && job < |p.jobs| && InTurnOfStock(p, a + b)
    ensures (forall i :: 0 <= i < |a| ==> a[i] < |p.entries|) && forall i :: 0 <= i < |a + b| ==> (a + b)[i] < |p.entries|
    ensures var r := IssueAll(env, p, job, a);
            if r.None? then !Issuable(env, p, p.jobs[job].scope, a + b)
            else
              && (forall i :: 0 <= i < |b| ==> b[i] < |r.value.entries|)
              && (Issuable(env, p, p.jobs[job].scope, a + b) <==> Issuable(env, r.value, p.jobs[job].scope, b))
  {
    StillInTurn(env, p, job, a, b);
    IssueAllIsGood(env, p, job, a);
    InTurnInRange(p, a + b);
    InTurnInRange(p, a);
    InTurnInRange(p, b);
    IssueAllAppends(env, p, job, a, b);
    IssueAllExactly(env, p, job, a + b);
    IssueAllFrame(env, p, job, a);
    var r := IssueAll(env, p, job, a);
    hide Sound, Extends, IssueAll, Issuable;
    if r.Some? {
      IssueAllExactly(env, r.value, job, b);
    }
  }

  lemma StockInTurn(p: Pool, t: nat, count: nat, ids: seq<nat>)
    requires ids == Take(AvailableIds(p.entries, t), count)
    ensures InTurnOfStock(p, ids)
  {
    StockInRange(p.entries, {t}, |p.entries|);
    StockComplete(p.entries, {t}, |p.entries|);
    hide Stock;
  }

  /** Serving the first job of a list issues the first rows and leaves the demand of the rest. */
  lemma {:induction false} DemandLeft(env: Env, p: Pool, h: nat, js: seq<nat>)
    requires h < |p.jobs| && h !in js && forall i :: 0 <= i < |js| ==> js[i] < |p.jobs|
    ensures var r := Serve(env, p, h);
            r.Some? ==> |r.value.jobs| == |p.jobs| && Demand(r.value, js) == Demand(p, js)
    decreases |js|
  {
    hide Serve, CountFor, ReservationTarget;
    ServeLeavesOthers(env, p, h, h + 1);
    if js != [] {
      ServeLeavesOthers(env, p, h, js[0]);
      DemandLeft(env, p, h, js[1..]);
    }
  }

  /** The next reservation of a job issues the first rows of its target's stock. */
  lemma ServeIssuesFirst(env: Env, p: Pool, t: nat, h: nat, k: nat, ids: seq<nat>)
    requires UniqueScopes(p.targets) && t < |p.targets| && p.targets[t].active && h < |p.jobs| && p.jobs[h].scope == p.targets[t].scope
    requires k == Min(Shortage(p, h), AvailableCount(p.entries, t)) && ids == AvailableIds(p.entries, t)[..k]
    ensures (forall i :: 0 <= i < |ids| ==> ids[i] < |p.entries|)
    ensures var r, q := Serve(env, p, h), IssueAll(env, p, h, ids);
            && r.Some? == q.Some?
            && (r.Some? ==>
                  && r.value.entries == q.value.entries && r.value.reservations == q.value.reservations && r.value.targets == p.targets
                  && AvailableIds(r.value.entries, t) == AvailableIds(p.entries, t)[k..])
  {
    OpenStockOfTarget(p, t);
    StockInRange(p.entries, {t}, |p.entries|);
    assert ids == Take(AvailableIds(p.entries, t), Shortage(p, h));
    assert Reserve(env, p, h) == IssueAll(env, p, h, ids);
    hide Stock, IssueAll, Shortage, Reserve, UniqueScopes, CountFor;
    ServeTakesOldest(env, p, t, h);
    IssueAllFrame(env, p, h, ids);
    var q := IssueAll(env, p, h, ids);
    assert Serve(env, p, h) == if q.Some? then Some(Recount(q.value, h)) else None;
  }

  lemma TakeSplits(all: seq<nat>, k: nat, rest: nat)
    requires k <= |all|
    ensures Take(all, k + rest) == all[..k] + Take(all[k..], rest)
  {
  }

  /** When the stock runs out, taking more than there is takes it all. */
  lemma TakeAll(all: seq<nat>, k: nat)
    requires k >= |all|
    ensures Take(all, k) == all == all[..|all|]
  {
  }

  lemma EmptyIsIssuable(env: Env, p: Pool, scope: Scope)
    ensures Issuable(env, p, scope, [])
  {
  }

  lemma StockInBounds(p: Pool, t: nat, count: nat, ids: seq<nat>)
    requires ids == Take(AvailableIds(p.entries, t), count)
    ensures forall i :: 0 <= i < |ids| ==> ids[i] < |p.entries|
  {
    StockInTurn(p, t, count, ids);
    InTurnInRange(p, ids);
  }

  /** Serving a list of jobs goes through exactly when the rows they take together can be issued
      one after the other. */
  lemma {:induction false} ServesExactly(env: Env, p: Pool, t: nat, js: seq<nat>, ids: seq<nat>)
    requires Sound(env, p) && t < |p.targets| && p.targets[t].active
    requires (forall i :: 0 <= i < |js| ==> js[i] < |p.jobs| && p.jobs[js[i]].scope == p.targets[t].scope)
    requires forall i, j :: 0 <= i < j < |js| ==> js[i] < js[j]
    requires ids == Take(AvailableIds(p.entries, t), Demand(p, js))
    ensures forall i :: 0 <= i < |ids| ==> ids[i] < |p.entries|
    ensures ServeAll(env, p, t, js).Done? <==> Issuable(env, p, p.targets[t].scope, ids)
    decreases |js|, 2
  {
    StockInBounds(p, t, Demand(p, js), ids);
    if js == [] {
      assert ids == [];
      EmptyIsIssuable(env, p, p.targets[t].scope);
    } else {
      FirstServesExactly(env, p, t, js, ids);
    }
  }

  lemma ServeAllSteps(env: Env, p: Pool, t: nat, js: seq<nat>)
    requires js != [] && forall i :: 0 <= i < |js| ==> js[i] < |p.jobs|
    ensures var r := Serve(env, p, js[0]);
            if r.None? then !ServeAll(env, p, t, js).Done?
            else if AvailableCount(r.value.entries, t) == 0 then ServeAll(env, p, t, js).Done?
            else |r.value.jobs| == |p.jobs| && ServeAll(env, p, t, js) == ServeAll(env, r.value, t, js[1..])
  {
    IssueAllFrame(env, p, js[0], Take(OpenStock(p, p.jobs[js[0]].scope), Shortage(p, js[0])));
    hide Serve, Stock;
  }

  lemma ServeKeepsLists(env: Env, p: Pool, h: nat, js: seq<nat>, scope: Scope)
    requires h < |p.jobs| && forall i :: 0 <= i < |js| ==> js[i] < |p.jobs| && p.jobs[js[i]].scope == scope
    ensures var r := Serve(env, p, h);
            r.Some? ==> forall i :: 0 <= i < |js| ==> js[i] < |r.value.jobs| && r.value.jobs[js[i]].scope == scope
  {
    IssueAllFrame(env, p, h, Take(OpenStock(p, p.jobs[h].scope), Shortage(p, h)));
  }

  /** The rows of the first job and those of the others. */
  lemma DemandSplits(p: Pool, all: seq<nat>, js: seq<nat>, ids: seq<nat>, k: nat) returns (b: seq<nat>)
    requires js != [] && (forall i :: 0 <= i < |js| ==> js[i] < |p.jobs|) && ids == Take(all, Demand(p, js))
    requires k == Min(Shortage(p, js[0]), |all|)
    ensures ids == all[..k] + b && b == Take(all[k..], Demand(p, js[1..]))
  {
    b := Take(all[k..], Demand(p, js[1..]));
    hide Shortage;
    if Shortage(p, js[0]) <= |all| {
      TakeSplits(all, k, Demand(p, js[1..]));
    } else {
      assert all[k..] == [] && b == [];
      TakeAll(all, Demand(p, js));
    }
  }

  lemma EmptyTake(all: seq<nat>, n: nat)
    ensures |all| == 0 ==> Take(all, n) == []
  {
  }

  lemma FirstServesExactly(env: Env, p: Pool, t: nat, js: seq<nat>, ids: seq<nat>)
    requires js != [] && Sound(env, p) && t < |p.targets| && p.targets[t].active
    requires (forall i :: 0 <= i < |js| ==> js[i] < |p.jobs| && p.jobs[js[i]].scope == p.targets[t].scope)
    requires forall i, j :: 0 <= i < j < |js| ==> js[i] < js[j]
    requires ids == Take(AvailableIds(p.entries, t), Demand(p, js)) && forall i :: 0 <= i < |ids| ==> ids[i] < |p.entries|
    ensures ServeAll(env, p, t, js).Done? <==> Issuable(env, p, p.targets[t].scope, ids)
    decreases |js|, 1
  {
    var h, all, scope := js[0], AvailableIds(p.entries, t), p.targets[t].scope;
    var k := Min(Shortage(p, h), |all|);
    var a := all[..k];
    assert UniqueScopes(p.targets) && h !in js[1..] && |all| == AvailableCount(p.entries, t);
    hide *;
    var b := DemandSplits(p, all, js, ids, k);
    StockInTurn(p, t, Demand(p, js), ids);
    ServeIssuesFirst(env, p, t, h, k, a);
    IssuableSplits(env, p, h, a, b);
    var r := Serve(env, p, h);
    if r.Some? {
      SameRowsIssuable(env, IssueAll(env, p, h, a).value, r.value, scope, b);
      RestServesExactly(env, p, r.value, t, js, b);
    } else {
      ServeAllSteps(env, p, t, js);
    }
  }

  /** Once the first job is served, the rest goes through exactly when its rows can be issued. */
  lemma RestServesExactly(env: Env, p: Pool, q: Pool, t: nat, js: seq<nat>, b: seq<nat>)
    requires js != [] && Sound(env, p) && t < |p.targets| && p.targets[t].active && js[0] !in js[1..]
    requires (forall i :: 0 <= i < |js| ==> js[i] < |p.jobs| && p.jobs[js[i]].scope == p.targets[t].scope)
    requires forall i, j :: 0 <= i < j < |js| ==> js[i] < js[j]
    requires Serve(env, p, js[0]) == Some(q) && b == Take(AvailableIds(q.entries, t), Demand(p, js[1..]))
    ensures forall i :: 0 <= i < |b| ==> b[i] < |q.entries|
    ensures ServeAll(env, p, t, js).Done? <==> Issuable(env, q, p.targets[t].scope, b)
    decreases |js|, 0
  {
    hide *;
    ServedSoundly(env, p, t, js[0], js[1..]);
    ServeAllSteps(env, p, t, js);
    if AvailableCount(q.entries, t) == 0 {
      CountOfIds(q.entries, t);
      EmptyTake(AvailableIds(q.entries, t), Demand(p, js[1..]));
      EmptyIsIssuable(env, q, p.targets[t].scope);
    } else {
      ServesExactly(env, q, t, js[1..], b);
    }
  }

  lemma CountOfIds(es: seq<Entry>, t: nat)
    ensures AvailableCount(es, t) == |AvailableIds(es, t)|
  {
  }

  /** Serving one job keeps all that the rest of the list needs. */
  lemma ServedSoundly(env: Env, p: Pool, t: nat, h: nat, js: seq<nat>)
    requires Sound(env, p) && t < |p.targets| && h < |p.jobs| && h !in js
    requires forall i :: 0 <= i < |js| ==> js[i] < |p.jobs| && p.jobs[js[i]].scope == p.targets[t].scope
    ensures var r := Serve(env, p, h);
            r.Some? ==>
              && Sound(env, r.value) && r.value.targets == p.targets && |r.value.jobs| == |p.jobs|
              && Demand(r.value, js) == Demand(p, js)
              && forall i :: 0 <= i < |js| ==> js[i] < |r.value.jobs| && r.value.jobs[js[i]].scope == p.targets[t].scope
  {
    hide Sound, Extends, Serve, Shortage, Good;
    ServeIsGood(env, p, h);
    DemandLeft(env, p, h, js);
    ServeKeepsLists(env, p, h, js, p.targets[t].scope);
    var r := Serve(env, p, h);
    if r.Some? {
      GoodIsSound(env, p, r.value);
    }
  }

  lemma GoodIsSound(env: Env, p: Pool, q: Pool)
    requires Good(env, p, q)
    ensures Sound(env, q)
  {
    hide Sound, Extends;
  }

  /** The rows that the unfinished jobs of a target take together: the oldest ones. */
  function Taken(p: Pool, t: nat): seq<nat>
    requires t < |p.targets|
  {
    UnfinishedInRange(p.jobs, p.targets[t].scope, |p.jobs|);
    Take(AvailableIds(p.entries, t), Demand(p, UnfinishedJobs(p.jobs, p.targets[t].scope, |p.jobs|)))
  }

  /** A fulfilment goes through exactly when the rows it would take can be issued in turn: what
      each is issued with is new at its turn. */
  lemma FulfilsExactly(env: Env, p: Pool, t: nat)
    requires Sound(env, p) && t < |p.targets| && p.targets[t].active
    ensures forall i :: 0 <= i < |Taken(p, t)| ==> Taken(p, t)[i] < |p.entries|
    ensures Fulfill(env, p, t).Done? <==> Issuable(env, p, p.targets[t].scope, Taken(p, t))
  {
    var js := UnfinishedJobs(p.jobs, p.targets[t].scope, |p.jobs|);
    UnfinishedInRange(p.jobs, p.targets[t].scope, |p.jobs|);
    UnfinishedComplete(p.jobs, p.targets[t].scope, |p.jobs|);
    hide Sound, Stock, ServeAll, Issuable, UnfinishedJobs, Demand, Take;
    ServesExactly(env, p, t, js, Taken(p, t));
  }
}
