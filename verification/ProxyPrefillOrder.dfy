/** The order of refills: when they complete, every order of the targets leaves each target the
    same lines in stock and gives each job the same proxies.  And what a prefill reports. */
module ProxyPrefillOrder {
  import opened Wrappers
  import opened Sequences
  import opened ProxyPool
  import opened ProxyPoolFacts
  import opened ProxyPoolFulfillment
  import opened ProxyPoolLines
  import opened ProxyPrefill
  import opened ProxyPrefillRefinement
  import opened ProxyPoolRuns
  import opened ProxyPoolStock

  // ------------------------------------------------------------------ pools alike for a target

  /** The job was given the same lines. */
  predicate SameGiven(rs: seq<Reservation>, qs: seq<Reservation>, job: nat) {
    CountFor(qs, job) == CountFor(rs, job) && LinesFor(qs, job) == LinesFor(rs, job)
  }

  /** The jobs of a scope have the same counters and statuses and were given the same lines. */
  ghost predicate SameJobs(p: Pool, q: Pool, scope: Scope) {
    |p.jobs| == |q.jobs| &&
    forall j: nat | j < |p.jobs| ::
      && q.jobs[j].scope == p.jobs[j].scope
      && (p.jobs[j].scope == scope ==> q.jobs[j] == p.jobs[j] && SameGiven(p.reservations, q.reservations, j))
  }

  /** Target `t` has the same levels and the same lines in stock, and its jobs are the same. */
  ghost predicate Alike(p: Pool, q: Pool, t: nat) {
    && t < |p.targets| && t < |q.targets|
    && q.targets[t].scope == p.targets[t].scope && q.targets[t].active == p.targets[t].active
    && q.targets[t].targetCount == p.targets[t].targetCount
    && AvailableCount(q.entries, t) == AvailableCount(p.entries, t) && StockLines(q.entries, t) == StockLines(p.entries, t)
    && SameJobs(p, q, p.targets[t].scope)
  }

  lemma AlikeTransitive(p: Pool, q: Pool, r: Pool, t: nat)
    requires Alike(p, q, t) && Alike(q, r, t)
    ensures Alike(p, r, t)
  {
  }

  lemma AlikeSymmetric(p: Pool, q: Pool, t: nat)
    requires Alike(p, q, t)
    ensures Alike(q, p, t)
  {
  }

  ghost predicate Open(p: Pool, t: nat) {
    UniqueScopes(p.targets) && t < |p.targets| && p.targets[t].active
  }

  lemma ServeAlike(env: Env, p: Pool, q: Pool, t: nat, h: nat)
    requires Open(p, t) && Open(q, t) && Alike(p, q, t) && h < |p.jobs| && p.jobs[h].scope == p.targets[t].scope
    ensures var a, b := Serve(env, p, h), Serve(env, q, h);
            && (a.Some? ==> a.value.targets == p.targets && |a.value.jobs| == |p.jobs|)
            && (b.Some? ==> b.value.targets == q.targets && |b.value.jobs| == |q.jobs|)
            && (a.Some? && b.Some? ==> Alike(a.value, b.value, t))
  {
    hide Serve, Stock, CountFor, UniqueScopes, ReservationTarget, StockLines, LinesFor, RepairedLines;
    ServeTakesOldest(env, p, t, h);
    ServeTakesOldest(env, q, t, h);
    ServeLines(env, p, t, h);
    ServeLines(env, q, t, h);
    var a, b := Serve(env, p, h), Serve(env, q, h);
    if a.Some? && b.Some? {
      forall j: nat | j < |p.jobs|
        ensures b.value.jobs[j].scope == a.value.jobs[j].scope
        ensures a.value.jobs[j].scope == a.value.targets[t].scope ==>
                  b.value.jobs[j] == a.value.jobs[j] && SameGiven(a.value.reservations, b.value.reservations, j)
      {
        if j != h {
          ServeLeavesOthers(env, p, h, j);
          ServeLeavesOthers(env, q, h, j);
          ServeLinesOthers(env, p, h, j);
          ServeLinesOthers(env, q, h, j);
        }
      }
    }
  }

  lemma ServeKeepsScopes(env: Env, p: Pool, h: nat)
    requires h < |p.jobs|
    ensures var a := Serve(env, p, h); a.Some? ==> |a.value.jobs| == |p.jobs| && forall j | 0 <= j < |p.jobs| :: a.value.jobs[j].scope == p.jobs[j].scope
  {
    IssueAllFrame(env, p, h, Take(OpenStock(p, p.jobs[h].scope), Shortage(p, h)));
  }

  lemma {:induction false} ServeAllAlike(env: Env, p: Pool, q: Pool, t: nat, js: seq<nat>)
    requires Open(p, t) && Open(q, t) && Alike(p, q, t)
    requires forall i :: 0 <= i < |js| ==> js[i] < |p.jobs| && p.jobs[js[i]].scope == p.targets[t].scope
    ensures var a, b := ServeAll(env, p, t, js), ServeAll(env, q, t, js);
            a.Done? && b.Done? ==> Alike(a.pool, b.pool, t)
    decreases |js|
  {
    hide Serve, CountFor, Stock;
    if js != [] {
      ServeAlike(env, p, q, t, js[0]);
      ServeKeepsScopes(env, p, js[0]);
      var a, b := Serve(env, p, js[0]), Serve(env, q, js[0]);
      if a.Some? && b.Some? && AvailableCount(a.value.entries, t) != 0 {
        ServeAllAlike(env, a.value, b.value, t, js[1..]);
      }
    }
  }

  /** Alike pools fulfil the same jobs in the same order. */
  lemma SameUnfinished(p: Pool, q: Pool, scope: Scope)
    requires SameJobs(p, q, scope)
    ensures UnfinishedJobs(p.jobs, scope, |p.jobs|) == UnfinishedJobs(q.jobs, scope, |q.jobs|)
  {
    UnfinishedAgrees(p.jobs, q.jobs, scope, |p.jobs|);
  }

  lemma FulfillAlike(env: Env, p: Pool, q: Pool, t: nat)
    requires Open(p, t) && Open(q, t) && Alike(p, q, t)
    ensures var a, b := Fulfill(env, p, t), Fulfill(env, q, t);
            && a.pool.targets == p.targets && b.pool.targets == q.targets
            && (a.Done? && b.Done? ==> Alike(a.pool, b.pool, t))
  {
    var scope := p.targets[t].scope;
    SameUnfinished(p, q, scope);
    UnfinishedInRange(p.jobs, scope, |p.jobs|);
    FulfillFrame(env, p, t);
    FulfillFrame(env, q, t);
    hide Alike, Open, UnfinishedJobs, ServeAll;
    ServeAllAlike(env, p, q, t, UnfinishedJobs(p.jobs, scope, |p.jobs|));
  }

  // ------------------------------------------------------------------ one refill

  /** The pool between the two transactions of a refill from fresh lines. */
  function Topped(env: Env, p: Pool, t: nat, supply: Supply): Pool
    requires t < |p.targets| && Supplies(supply(t), Needed(p, t))
  {
    p.(entries := p.entries + NewEntries(env, Mine(p, t, supply)))
  }

  ghost predicate Refillable(env: Env, p: Pool, t: nat, supply: Supply) {
    Eligible(p, [t]) && FreshSupply(env, p, [t], supply) && Generous(p, supply)
  }

  lemma RefillableIsOpen(env: Env, p: Pool, t: nat, supply: Supply)
    requires Refillable(env, p, t, supply)
    ensures Open(p, t) && Supplies(supply(t), Needed(p, t)) && Open(Topped(env, p, t, supply), t)
  {
    assert [t][0] == t;
  }

  lemma ToppedStock(env: Env, p: Pool, t: nat, supply: Supply)
    requires Refillable(env, p, t, supply) && t < |p.targets| && Supplies(supply(t), Needed(p, t))
    requires Needed(p, t) == 0 || supply(t).Some?
    ensures AvailableCount(Topped(env, p, t, supply).entries, t) == Max(AvailableCount(p.entries, t), p.targets[t].targetCount)
    ensures AvailableIds(Topped(env, p, t, supply).entries, t) ==
              AvailableIds(p.entries, t) + seq(|Mine(p, t, supply)|, i => |p.entries| + i)
  {
    var lines := if Needed(p, t) == 0 then [] else supply(t).value[..Needed(p, t)];
    assert Mine(p, t, supply) == RowsOf(t, lines);
    AppendedStock(env, p.entries, t, lines, t);
  }

  /** Topping up appends the new lines. */
  lemma ToppedLines(env: Env, p: Pool, t: nat, supply: Supply)
    requires Refillable(env, p, t, supply) && t < |p.targets| && Supplies(supply(t), Needed(p, t))
    requires Needed(p, t) == 0 || supply(t).Some?
    ensures StockLines(Topped(env, p, t, supply).entries, t) ==
              StockLines(p.entries, t) + (if Needed(p, t) == 0 then [] else supply(t).value[..Needed(p, t)])
  {
    var lines := if Needed(p, t) == 0 then [] else supply(t).value[..Needed(p, t)];
    assert Mine(p, t, supply) == RowsOf(t, lines);
    hide Stock, Refillable, Needed, Mine, NewEntries, StockLines, AvailableIds;
    ToppedStock(env, p, t, supply);
    StockLinesGrow(env, p.entries, Topped(env, p, t, supply).entries, t, lines);
  }

  lemma StockLinesGrow(env: Env, es: seq<Entry>, fs: seq<Entry>, t: nat, lines: seq<string>)
    requires fs == es + NewEntries(env, RowsOf(t, lines))
    requires AvailableIds(fs, t) == AvailableIds(es, t) + seq(|lines|, i => |es| + i)
    ensures StockLines(fs, t) == StockLines(es, t) + lines
  {
    StockInRange(es, {t}, |es|);
    StockInRange(fs, {t}, |fs|);
    hide Stock;
    assert forall i | 0 <= i < |lines| :: fs[|es| + i] == NewEntry(env, Row(t, lines[i]));
  }

  lemma RefillSplits(env: Env, p: Pool, t: nat, supply: Supply)
    requires Refillable(env, p, t, supply)
    ensures Open(p, t) && Supplies(supply(t), Needed(p, t)) && Open(Topped(env, p, t, supply), t)
    ensures var r, f := Refill(env, p, t, supply(t)), Fulfill(env, Topped(env, p, t, supply), t);
            && (r.Done? <==> (Needed(p, t) == 0 || supply(t).Some?) && f.Done?)
            && (r.Done? ==> r.pool == f.pool.(targets := ClearClaim(p.targets, t)) && f.pool.targets == p.targets)
  {
    RefillableIsOpen(env, p, t, supply);
    assert [t][0] == t;
    TopUpAppends(env, p, [t], supply);
    hide FreshSupply, Generous, Fulfill, Needed, Mine, NewEntries;
    if Needed(p, t) == 0 || supply(t).Some? {
      RefillUnfolds(env, p, Topped(env, p, t, supply), t, supply(t));
    }
  }

  lemma AlikeWhenCleared(p: Pool, q: Pool, a: Pool, b: Pool, t: nat)
    requires Alike(a, b, t) && a.targets == p.targets && b.targets == q.targets && t < |p.targets| && t < |q.targets|
    ensures Alike(a.(targets := ClearClaim(p.targets, t)), b.(targets := ClearClaim(q.targets, t)), t)
  {
  }

  lemma ToppedAlike(env: Env, p: Pool, q: Pool, t: nat, supply: Supply)
    requires Refillable(env, p, t, supply) && Refillable(env, q, t, supply) && Alike(p, q, t)
    requires Supplies(supply(t), Needed(p, t)) && Supplies(supply(t), Needed(q, t))
    requires Needed(p, t) == 0 || supply(t).Some?
    ensures Needed(p, t) == Needed(q, t)
    ensures Alike(Topped(env, p, t, supply), Topped(env, q, t, supply), t)
  {
    ToppedStock(env, p, t, supply);
    ToppedStock(env, q, t, supply);
    ToppedLines(env, p, t, supply);
    ToppedLines(env, q, t, supply);
    hide Refillable, CountFor, Stock, StockLines, LinesFor;
  }

  /** Two completed refills of a target in alike pools leave alike pools. */
  lemma RefillAlike(env: Env, p: Pool, q: Pool, t: nat, supply: Supply)
    requires Refillable(env, p, t, supply) && Refillable(env, q, t, supply) && Alike(p, q, t)
    ensures var a, b := Refill(env, p, t, supply(t)), Refill(env, q, t, supply(t));
            a.Done? && b.Done? ==> Alike(a.pool, b.pool, t)
  {
    hide *;
    RefillSplits(env, p, t, supply);
    RefillSplits(env, q, t, supply);
    var a, b := Refill(env, p, t, supply(t)), Refill(env, q, t, supply(t));
    OpenInRange(p, t);
    OpenInRange(q, t);
    if a.Done? && b.Done? {
      var x, y := Topped(env, p, t, supply), Topped(env, q, t, supply);
      ToppedAlike(env, p, q, t, supply);
      FulfillAlike(env, x, y, t);
      var f, g := Fulfill(env, x, t), Fulfill(env, y, t);
      AlikeWhenCleared(p, q, f.pool, g.pool, t);
    }
  }

  lemma OpenInRange(p: Pool, t: nat)
    requires Open(p, t)
    ensures t < |p.targets|
  {
  }

  // ------------------------------------------------------------------ the other targets

  lemma {:induction false} ServeAllLeaves(env: Env, p: Pool, t: nat, js: seq<nat>, j: nat)
    requires (forall i :: 0 <= i < |js| ==> js[i] < |p.jobs|) && j < |p.jobs| && j !in js
    ensures var q := ServeAll(env, p, t, js).pool;
            |q.jobs| == |p.jobs| && q.jobs[j] == p.jobs[j] && SameGiven(p.reservations, q.reservations, j)
    decreases |js|
  {
    hide Serve, CountFor, Stock, LinesFor;
    if js != [] {
      ServeLeavesOthers(env, p, js[0], j);
      ServeLinesOthers(env, p, js[0], j);
      var a := Serve(env, p, js[0]);
      if a.Some? && AvailableCount(a.value.entries, t) != 0 {
        ServeAllLeaves(env, a.value, t, js[1..], j);
      }
    }
  }

  lemma FulfillLeavesScope(env: Env, p: Pool, t: nat, scope: Scope)
    requires t < |p.targets| && p.targets[t].scope != scope
    ensures SameJobs(p, Fulfill(env, p, t).pool, scope)
  {
    var js := UnfinishedJobs(p.jobs, p.targets[t].scope, |p.jobs|);
    UnfinishedInRange(p.jobs, p.targets[t].scope, |p.jobs|);
    hide ServeAll, SameGiven, UnfinishedJobs;
    ServedAreKept(env, p, t, js);
    forall j: nat | j < |p.jobs| && p.jobs[j].scope == scope
      ensures Fulfill(env, p, t).pool.jobs[j] == p.jobs[j]
      ensures SameGiven(p.reservations, Fulfill(env, p, t).pool.reservations, j)
    {
      ServeAllLeaves(env, p, t, js, j);
    }
  }

  /** A refill leaves the jobs of every other scope alone. */
  lemma RefillLeavesScope(env: Env, p: Pool, u: nat, supply: Supply, scope: Scope)
    requires Refillable(env, p, u, supply) && u < |p.targets| && p.targets[u].scope != scope
    ensures var r := Refill(env, p, u, supply(u)); r.Done? ==> SameJobs(p, r.pool, scope)
  {
    RefillSplits(env, p, u, supply);
    hide Refill, Fulfill, Refillable, NewEntries, Mine, CountFor;
    FulfillLeavesScope(env, Topped(env, p, u, supply), u, scope);
  }

  lemma FirstIsRefillable(env: Env, p: Pool, ts: seq<nat>, supply: Supply)
    requires ts != [] && Eligible(p, ts) && FreshSupply(env, p, ts, supply) && Generous(p, supply)
    ensures Refillable(env, p, ts[0], supply) && ts[0] < |p.targets|
  {
    FreshSupplyOfSome(env, p, ts, [ts[0]], supply);
    hide FreshSupply, Generous;
  }

  /** A refill leaves every other target as it was. */
  lemma RefillLeaves(env: Env, p: Pool, ts: seq<nat>, supply: Supply, t: nat)
    requires ts != [] && Eligible(p, ts) && FreshSupply(env, p, ts, supply) && Generous(p, supply)
    requires t < |p.targets| && t != ts[0]
    ensures var r := Refill(env, p, ts[0], supply(ts[0]));
            r.Done? ==> Alike(p, r.pool, t) && OthersKept(p, r.pool, ts[0])
  {
    FirstIsRefillable(env, p, ts, supply);
    RefillKeepsFresh(env, p, ts, supply);
    assert p.targets[ts[0]].scope != p.targets[t].scope by {
      assert UniqueScopes(p.targets);
    }
    RefillLeavesScope(env, p, ts[0], supply, p.targets[t].scope);
    var r := Refill(env, p, ts[0], supply(ts[0]));
    hide Refill, Refillable, FreshSupply, Eligible, Generous, SameJobs, OthersKept, Needed;
    if r.Done? {
      LinesOfOthers(p, r.pool, ts[0], t);
    }
  }

  lemma LinesOfOthers(p: Pool, r: Pool, t: nat, u: nat)
    requires OthersKept(p, r, t) && u != t
    ensures AvailableIds(r.entries, u) == AvailableIds(p.entries, u) && StockLines(r.entries, u) == StockLines(p.entries, u)
  {
    StockOfOthers(p, r, t, u, |r.entries|);
    StockInRange(p.entries, {u}, |p.entries|);
    hide Stock;
  }

  /** The hypotheses under which the refills of `ts` are run. */
  ghost predicate Prepared(env: Env, p: Pool, ts: seq<nat>, supply: Supply) {
    Eligible(p, ts) && FreshSupply(env, p, ts, supply) && Generous(p, supply)
  }

  lemma PreparedLater(env: Env, p: Pool, ts: seq<nat>, supply: Supply)
    requires ts != [] && Prepared(env, p, ts, supply)
    ensures Generous(p, supply) && ts[0] < |p.targets| && Refillable(env, p, ts[0], supply) && Supplies(supply(ts[0]), Needed(p, ts[0]))
    ensures ts[0] !in ts[1..]
    ensures var r := Refill(env, p, ts[0], supply(ts[0]));
            if r.Done?
            then Prepared(env, r.pool, ts[1..], supply) && Generous(r.pool, supply) && SameShape(p.targets, r.pool.targets) &&
                 InTurn(env, p, ts, supply) == InTurn(env, r.pool, ts[1..], supply)
            else InTurn(env, p, ts, supply) == None
  {
    FirstIsRefillable(env, p, ts, supply);
    RefillKeepsFresh(env, p, ts, supply);
    InTurnUnfolds(env, p, ts, supply);
    hide InTurn, Refill, FreshSupply, Generous;
  }

  lemma PreparedIsGenerous(env: Env, p: Pool, ts: seq<nat>, supply: Supply)
    requires Prepared(env, p, ts, supply)
    ensures Generous(p, supply)
  {
  }

  lemma AlikeItself(p: Pool, t: nat)
    requires t < |p.targets|
    ensures Alike(p, p, t)
  {
  }

  lemma {:induction false} InTurnLeaves(env: Env, p: Pool, ts: seq<nat>, supply: Supply, t: nat)
    requires Prepared(env, p, ts, supply) && t < |p.targets| && t !in ts
    ensures Generous(p, supply)
    ensures var r := InTurn(env, p, ts, supply); r.Some? ==> Alike(p, r.value, t)
    decreases |ts|
  {
    PreparedIsGenerous(env, p, ts, supply);
    AlikeItself(p, t);
    if ts != [] {
      assert ts[0] in ts;
      hide Alike, Refill, Generous, InTurn;
      PreparedLater(env, p, ts, supply);
      RefillLeaves(env, p, ts, supply, t);
      hide Prepared;
      var r := Refill(env, p, ts[0], supply(ts[0]));
      if r.Done? {
        InTurnLeaves(env, r.pool, ts[1..], supply, t);
        if InTurn(env, p, ts, supply).Some? {
          AlikeTransitive(p, r.pool, InTurn(env, p, ts, supply).value, t);
        }
      }
    }
  }

  lemma SameJobsTransitive(p: Pool, q: Pool, r: Pool, scope: Scope)
    requires SameJobs(p, q, scope) && SameJobs(q, r, scope)
    ensures SameJobs(p, r, scope)
  {
  }

  lemma {:induction false} InTurnLeavesScope(env: Env, p: Pool, ts: seq<nat>, supply: Supply, scope: Scope)
    requires Prepared(env, p, ts, supply) && forall i | 0 <= i < |ts| :: ts[i] < |p.targets| ==> p.targets[ts[i]].scope != scope
    ensures Generous(p, supply)
    ensures var r := InTurn(env, p, ts, supply); r.Some? ==> SameJobs(p, r.value, scope)
    decreases |ts|
  {
    PreparedIsGenerous(env, p, ts, supply);
    SameJobsItself(p, scope);
    if ts != [] {
      hide SameJobs, Refill, Generous, InTurn, Prepared, Refillable;
      PreparedLater(env, p, ts, supply);
      RefillLeavesScope(env, p, ts[0], supply, scope);
      var r := Refill(env, p, ts[0], supply(ts[0]));
      if r.Done? {
        assert forall i | 0 <= i < |ts[1..]| :: ts[1..][i] == ts[i + 1];
        InTurnLeavesScope(env, r.pool, ts[1..], supply, scope);
        if InTurn(env, p, ts, supply).Some? {
          SameJobsTransitive(p, r.pool, InTurn(env, p, ts, supply).value, scope);
        }
      }
    }
  }

  lemma SameJobsItself(p: Pool, scope: Scope)
    ensures SameJobs(p, p, scope)
  {
  }

  // ------------------------------------------------------------------ any order

  lemma ShapeLength(a: seq<Target>, b: seq<Target>)
    ensures SameShape(a, b) ==> |a| == |b|
  {
  }

  /** The pool a target finds when its turn comes. */
  lemma {:induction false} OwnTurn(env: Env, p: Pool, ts: seq<nat>, supply: Supply, t: nat) returns (m: Pool)
    requires Prepared(env, p, ts, supply) && t in ts && Generous(p, supply) && InTurn(env, p, ts, supply).Some?
    ensures Refillable(env, m, t, supply) && Alike(p, m, t)
    ensures Supplies(supply(t), Needed(m, t)) || t >= |m.targets|
    ensures Refill(env, m, t, supply(t)).Done? && Alike(Refill(env, m, t, supply(t)).pool, InTurn(env, p, ts, supply).value, t)
    decreases |ts|
  {
    hide *;
    PreparedLater(env, p, ts, supply);
    ShapeLength(p.targets, Refill(env, p, ts[0], supply(ts[0])).pool.targets);
    InTurnTargets(env, p, ts, supply, t);
    var r := Refill(env, p, ts[0], supply(ts[0]));
    if t == ts[0] {
      m := p;
      AlikeItself(p, t);
      InTurnLeaves(env, r.pool, ts[1..], supply, t);
    } else {
      assert t in ts[1..];
      UnfoldPrepared(env, p, ts, supply);
      RefillLeaves(env, p, ts, supply, t);
      m := OwnTurn(env, r.pool, ts[1..], supply, t);
      AlikeTransitive(p, r.pool, m, t);
    }
  }

  lemma UnfoldPrepared(env: Env, p: Pool, ts: seq<nat>, supply: Supply)
    requires Prepared(env, p, ts, supply)
    ensures Eligible(p, ts) && FreshSupply(env, p, ts, supply) && Generous(p, supply)
  {
  }

  lemma InTurnTargets(env: Env, p: Pool, ts: seq<nat>, supply: Supply, t: nat)
    requires Prepared(env, p, ts, supply) && t in ts
    ensures t < |p.targets|
  {
    hide FreshSupply, Generous;
  }

  /** `b` lists the same targets as `a`, each once. */
  ghost predicate Reorders(a: seq<nat>, b: seq<nat>) {
    (forall x :: x in a <==> x in b) && (forall i, j | 0 <= i < j < |b| :: b[i] != b[j])
  }

  lemma PreparedInAnyOrder(env: Env, p: Pool, a: seq<nat>, b: seq<nat>, supply: Supply)
    requires Prepared(env, p, a, supply) && Reorders(a, b)
    ensures Prepared(env, p, b, supply)
  {
    forall i | 0 <= i < |b| ensures b[i] in a {}
    FreshSupplyOfSome(env, p, a, b, supply);
    hide FreshSupply, Generous, UniqueScopes;
  }

  lemma {:induction false} InTurnClears(env: Env, p: Pool, ts: seq<nat>, supply: Supply)
    requires Prepared(env, p, ts, supply)
    ensures Generous(p, supply)
    ensures var r := InTurn(env, p, ts, supply); r.Some? ==> r.value.targets == ClearAll(p.targets, ts)
    decreases |ts|
  {
    PreparedIsGenerous(env, p, ts, supply);
    if ts == [] {
      assert ClearAll(p.targets, ts) == p.targets;
    } else {
      hide Refill, Generous, InTurn, Prepared, Refillable, ClearAll, ClearClaim;
      PreparedLater(env, p, ts, supply);
      RefillFrame(env, p, ts[0], supply(ts[0]));
      var r := Refill(env, p, ts[0], supply(ts[0]));
      if r.Done? {
        InTurnClears(env, r.pool, ts[1..], supply);
        ClearsRest(p.targets, ts);
      }
    }
  }

  /** The same targets with the same lines in stock, and the same jobs with the same proxies. */
  ghost predicate SameOutcome(p: Pool, q: Pool) {
    && q.targets == p.targets && q.jobs == p.jobs
    && (forall t: nat | t < |p.targets| :: StockLines(q.entries, t) == StockLines(p.entries, t))
    && (forall j: nat | j < |p.jobs| :: LinesFor(q.reservations, j) == LinesFor(p.reservations, j))
  }

  /** Each target ends alike in both orders. */
  lemma TargetEndsAlike(env: Env, p: Pool, a: seq<nat>, b: seq<nat>, supply: Supply, t: nat)
    requires Prepared(env, p, a, supply) && Prepared(env, p, b, supply) && Generous(p, supply) && t < |p.targets| && (t in a <==> t in b)
    ensures var q, r := InTurn(env, p, a, supply), InTurn(env, p, b, supply);
            q.Some? && r.Some? ==> Alike(q.value, r.value, t)
  {
    var q, r := InTurn(env, p, a, supply), InTurn(env, p, b, supply);
    hide *;
    if q.Some? && r.Some? {
      if t in a {
        var m := OwnTurn(env, p, a, supply, t);
        var n := OwnTurn(env, p, b, supply, t);
        AlikeSymmetric(p, m, t);
        AlikeTransitive(m, p, n, t);
        RefillAlike(env, m, n, t, supply);
        var x, y := Refill(env, m, t, supply(t)).pool, Refill(env, n, t, supply(t)).pool;
        AlikeSymmetric(x, q.value, t);
        AlikeTransitive(q.value, x, y, t);
        AlikeTransitive(q.value, y, r.value, t);
      } else {
        InTurnLeaves(env, p, a, supply, t);
        InTurnLeaves(env, p, b, supply, t);
        AlikeSymmetric(p, q.value, t);
        AlikeTransitive(q.value, p, r.value, t);
      }
    }
  }

  lemma SameJobsSymmetric(p: Pool, q: Pool, scope: Scope)
    requires SameJobs(p, q, scope)
    ensures SameJobs(q, p, scope)
  {
  }

  lemma JobsOfScopeEndSame(env: Env, p: Pool, a: seq<nat>, b: seq<nat>, supply: Supply, scope: Scope)
    requires Prepared(env, p, a, supply) && Prepared(env, p, b, supply) && Generous(p, supply) && forall x :: x in a <==> x in b
    ensures var q, r := InTurn(env, p, a, supply), InTurn(env, p, b, supply);
            q.Some? && r.Some? ==> SameJobs(p, p, scope) && SameJobs(q.value, r.value, scope) && |q.value.jobs| == |p.jobs|
  {
    var q, r := InTurn(env, p, a, supply), InTurn(env, p, b, supply);
    if q.Some? && r.Some? {
      if i :| 0 <= i < |a| && a[i] < |p.targets| && p.targets[a[i]].scope == scope {
        hide InTurn, Prepared, Generous, StockLines, AvailableCount, LinesFor, CountFor;
        OwnJobs(env, p, a, b, supply, a[i]);
      } else {
        assert forall j | 0 <= j < |b| :: b[j] in a;
        hide InTurn, Prepared, Generous;
        InTurnLeavesScope(env, p, a, supply, scope);
        InTurnLeavesScope(env, p, b, supply, scope);
        SameJobsSymmetric(p, q.value, scope);
        SameJobsTransitive(q.value, p, r.value, scope);
      }
    }
  }

  lemma OwnJobs(env: Env, p: Pool, a: seq<nat>, b: seq<nat>, supply: Supply, t: nat)
    requires Prepared(env, p, a, supply) && Prepared(env, p, b, supply) && Generous(p, supply) && (forall x :: x in a <==> x in b) && t in a
    ensures t < |p.targets|
    ensures var q, r := InTurn(env, p, a, supply), InTurn(env, p, b, supply);
            q.Some? && r.Some? ==> SameJobs(q.value, r.value, p.targets[t].scope) && |q.value.jobs| == |p.jobs|
  {
    var q, r := InTurn(env, p, a, supply), InTurn(env, p, b, supply);
    InTurnTargets(env, p, a, supply, t);
    hide InTurn, Prepared, Generous, StockLines, AvailableCount, LinesFor, CountFor, Refill, Refillable, Needed;
    if q.Some? && r.Some? {
      TargetEndsAlike(env, p, a, b, supply, t);
      InTurnClears(env, p, a, supply);
      var m := OwnTurn(env, p, a, supply, t);
      JobsKeepNumber(env, p, a, supply);
    }
  }

  lemma {:induction false} JobsKeepNumber(env: Env, p: Pool, ts: seq<nat>, supply: Supply)
    requires Prepared(env, p, ts, supply)
    ensures Generous(p, supply)
    ensures var r := InTurn(env, p, ts, supply);
            r.Some? ==> |r.value.jobs| == |p.jobs| && forall j | 0 <= j < |p.jobs| :: r.value.jobs[j].scope == p.jobs[j].scope
    decreases |ts|
  {
    PreparedIsGenerous(env, p, ts, supply);
    if ts != [] {
      hide Refill, Generous, InTurn, Prepared, CountFor, Needed;
      PreparedLater(env, p, ts, supply);
      var r := Refill(env, p, ts[0], supply(ts[0]));
      if r.Done? {
        RefillSplits(env, p, ts[0], supply);
        FulfillKeepsScopes(env, Topped(env, p, ts[0], supply), ts[0]);
        JobsKeepNumber(env, r.pool, ts[1..], supply);
      }
    }
  }

  lemma FulfillKeepsScopes(env: Env, p: Pool, t: nat)
    requires t < |p.targets|
    ensures var q := Fulfill(env, p, t).pool; |q.jobs| == |p.jobs| && forall j | 0 <= j < |p.jobs| :: q.jobs[j].scope == p.jobs[j].scope
  {
    UnfinishedInRange(p.jobs, p.targets[t].scope, |p.jobs|);
    ServedAreKept(env, p, t, UnfinishedJobs(p.jobs, p.targets[t].scope, |p.jobs|));
  }

  /** Refills that complete give every target the same stock and every job the same proxies
      and status, whatever their order. */
  lemma OrderIsIrrelevant(env: Env, p: Pool, a: seq<nat>, b: seq<nat>, supply: Supply)
    requires Prepared(env, p, a, supply) && Reorders(a, b)
    ensures Generous(p, supply)
    ensures var q, r := InTurn(env, p, a, supply), InTurn(env, p, b, supply);
            q.Some? && r.Some? ==> SameOutcome(q.value, r.value)
  {
    PreparedInAnyOrder(env, p, a, b, supply);
    PreparedIsGenerous(env, p, a, supply);
    var q, r := InTurn(env, p, a, supply), InTurn(env, p, b, supply);
    hide InTurn, Prepared, Generous, StockLines, AvailableCount, LinesFor, CountFor;
    if q.Some? && r.Some? {
      InTurnClears(env, p, a, supply);
      InTurnClears(env, p, b, supply);
      assert forall x :: x in a <==> x in b;
      assert ClearAll(p.targets, a) == ClearAll(p.targets, b);
      JobsKeepNumber(env, p, a, supply);
      JobsKeepNumber(env, p, b, supply);
      forall t: nat | t < |p.targets| ensures StockLines(r.value.entries, t) == StockLines(q.value.entries, t) {
        TargetEndsAlike(env, p, a, b, supply, t);
      }
      forall j: nat | j < |p.jobs|
        ensures r.value.jobs[j] == q.value.jobs[j] && LinesFor(r.value.reservations, j) == LinesFor(q.value.reservations, j)
      {
        JobsOfScopeEndSame(env, p, a, b, supply, p.jobs[j].scope);
        assert q.value.jobs[j].scope == p.jobs[j].scope;
      }
    }
  }

  // ------------------------------------------------------------------ the batch size

  /** The members of a locked batch. */
  lemma LockedMembers(rows: seq<Target>, wanted: set<nat>, x: nat)
    ensures x in LockedBatch(rows, wanted, |rows|) <==> x < |rows| && x in wanted && rows[x].active
  {
    var batch := LockedBatch(rows, wanted, |rows|);
    hide LockedBatch;
    if x in batch {
      var i :| 0 <= i < |batch| && batch[i] == x;
    }
  }

  lemma LockedOnce(rows: seq<Target>, wanted: set<nat>)
    ensures var batch := LockedBatch(rows, wanted, |rows|); forall i, j | 0 <= i < j < |batch| :: batch[i] != batch[j]
  {
    var batch := LockedBatch(rows, wanted, |rows|);
    hide LockedBatch;
    forall i, j | 0 <= i < j < |batch| ensures batch[i] != batch[j] {
      assert batch[i] < batch[j];
    }
  }

  lemma LockedIsChunk(rows: seq<Target>, chunk: seq<nat>)
    requires forall a | 0 <= a < |chunk| :: chunk[a] < |rows| && rows[chunk[a]].active
    ensures Reorders(chunk, LockedBatch(rows, set i | i in chunk, |rows|))
  {
    var wanted: set<nat> := set i | i in chunk;
    var batch := LockedBatch(rows, wanted, |rows|);
    LockedOnce(rows, wanted);
    hide LockedBatch;
    forall x: nat ensures x in chunk <==> x in batch {
      LockedMembers(rows, wanted, x);
      if x in chunk {
        var i :| 0 <= i < |chunk| && chunk[i] == x;
      }
    }
  }

  /** The batches process every target, each once. */
  lemma {:induction false} BatchesReorder(rows: seq<Target>, targets: seq<nat>, size: nat)
    requires size > 0 && forall a | 0 <= a < |targets| :: targets[a] < |rows| && rows[targets[a]].active
    requires forall a, b | 0 <= a < b < |targets| :: targets[a] != targets[b]
    ensures Reorders(targets, ProcessingOrder(rows, targets, size))
    decreases |targets|
  {
    if targets != [] {
      var chunk, rest := Take(targets, size), targets[|Take(targets, size)|..];
      assert targets == chunk + rest;
      assert forall a | 0 <= a < |rest| :: rest[a] == targets[|chunk| + a];
      LockedIsChunk(rows, chunk);
      BatchesReorder(rows, rest, size);
      hide LockedBatch, Reorders;
      assert forall i, j | 0 <= i < j < |chunk + rest| :: (chunk + rest)[i] != (chunk + rest)[j];
      ReordersJoin(chunk, rest, LockedBatch(rows, set i | i in chunk, |rows|), ProcessingOrder(rows, rest, size));
    }
  }

  lemma ReordersJoin(a: seq<nat>, b: seq<nat>, c: seq<nat>, d: seq<nat>)
    requires Reorders(a, c) && Reorders(b, d) && forall i, j | 0 <= i < j < |a + b| :: (a + b)[i] != (a + b)[j]
    ensures Reorders(a + b, c + d)
  {
    forall i, j | 0 <= i < |c| && 0 <= j < |d| ensures c[i] != d[j] {
      assert c[i] in a && d[j] in b;
      var x :| 0 <= x < |a| && a[x] == c[i];
      var y :| 0 <= y < |b| && b[y] == d[j];
      assert (a + b)[x] == a[x] && (a + b)[|a| + y] == b[y];
    }
    forall x ensures x in a + b <==> x in c + d {
      assert x in a + b <==> x in a || x in b;
      assert x in c + d <==> x in c || x in d;
    }
  }

  // ------------------------------------------------------------------ what is created

  function SumNeeded(p: Pool, ts: seq<nat>): nat
    requires forall i | 0 <= i < |ts| :: ts[i] < |p.targets|
    decreases |ts|
  {
    if ts == [] then 0 else Needed(p, ts[0]) + SumNeeded(p, ts[1..])
  }

  lemma {:induction false} SumSplits(p: Pool, a: seq<nat>, b: seq<nat>)
    requires (forall i | 0 <= i < |a| :: a[i] < |p.targets|) && (forall i | 0 <= i < |b| :: b[i] < |p.targets|)
    ensures SumNeeded(p, a + b) == SumNeeded(p, a) + SumNeeded(p, b)
    decreases |a|
  {
    if a == [] {
      assert a + b == b;
    } else {
      assert (a + b)[1..] == a[1..] + b;
      SumSplits(p, a[1..], b);
    }
  }

  lemma WithoutFirst(a: seq<nat>, b: seq<nat>, k: nat)
    requires a != [] && (forall i, j | 0 <= i < j < |a| :: a[i] != a[j]) && Reorders(a, b) && k < |b| && b[k] == a[0]
    ensures Reorders(a[1..], b[..k] + b[k + 1..])
  {
    var head, tail := b[..k], b[k + 1..];
    assert b == head + [b[k]] + tail;
    forall x ensures x in a[1..] <==> x in head + tail {
      assert x in a <==> x == a[0] || x in a[1..];
      assert x in b <==> x in head || x == b[k] || x in tail;
      assert a[0] !in a[1..] && b[k] !in head && b[k] !in tail;
    }
    forall i, j | 0 <= i < j < |head + tail| ensures (head + tail)[i] != (head + tail)[j] {
      assert (head + tail)[i] == b[if i < k then i else i + 1] && (head + tail)[j] == b[if j < k then j else j + 1];
    }
  }

  lemma SumWithout(p: Pool, b: seq<nat>, k: nat, others: seq<nat>)
    requires k < |b| && others == b[..k] + b[k + 1..] && forall i | 0 <= i < |b| :: b[i] < |p.targets|
    ensures forall i | 0 <= i < |others| :: others[i] < |p.targets|
    ensures SumNeeded(p, b) == Needed(p, b[k]) + SumNeeded(p, others)
  {
    var head, tail := b[..k], b[k + 1..];
    assert b == head + ([b[k]] + tail) && ([b[k]] + tail)[1..] == tail;
    SumSplits(p, head, [b[k]] + tail);
    SumSplits(p, head, tail);
  }

  lemma ReordersInRange(p: Pool, a: seq<nat>, b: seq<nat>)
    requires (forall i | 0 <= i < |a| :: a[i] < |p.targets|) && Reorders(a, b)
    ensures forall i | 0 <= i < |b| :: b[i] < |p.targets|
    ensures a == [] ==> b == []
    ensures a != [] ==> exists k :: 0 <= k < |b| && b[k] == a[0]
  {
    assert forall i | 0 <= i < |b| :: b[i] in a;
    assert a != [] ==> a[0] in b;
    assert b != [] ==> b[0] in b;
  }

  /** The sum does not depend on the order. */
  lemma {:induction false} SumReorders(p: Pool, a: seq<nat>, b: seq<nat>)
    requires (forall i | 0 <= i < |a| :: a[i] < |p.targets|) && (forall i, j | 0 <= i < j < |a| :: a[i] != a[j]) && Reorders(a, b)
    ensures (forall i | 0 <= i < |b| :: b[i] < |p.targets|) && SumNeeded(p, a) == SumNeeded(p, b)
    decreases |a|
  {
    hide Reorders, Needed;
    ReordersInRange(p, a, b);
    if a != [] {
      var k :| 0 <= k < |b| && b[k] == a[0];
      var others := b[..k] + b[k + 1..];
      WithoutFirst(a, b, k);
      SumReorders(p, a[1..], others);
      SumWithout(p, b, k, others);
    }
  }

  lemma {:induction false} RowsNeeded(p: Pool, batch: seq<nat>, supply: Supply)
    requires BatchSupplied(p, batch, supply) && BatchRows(p, batch, supply).Some?
    ensures |BatchRows(p, batch, supply).value| == SumNeeded(p, batch)
    decreases |batch|
  {
    if batch != [] {
      RowsSplit(p, batch, supply);
      RowsNeeded(p, batch[1..], supply);
    }
  }

  lemma {:induction false} StockGrows(env: Env, es: seq<Entry>, rows: seq<Row>, ts: set<nat>)
    requires forall r | 0 <= r < |rows| :: rows[r].target in ts
    ensures |Stock(es + NewEntries(env, rows), ts, |es| + |rows|)| == |Stock(es, ts, |es|)| + |rows|
    decreases |rows|
  {
    if rows == [] {
      assert es + NewEntries(env, rows) == es;
    } else {
      var n := |rows| - 1;
      StockGrows(env, es, rows[..n], ts);
      assert es + NewEntries(env, rows) == (es + NewEntries(env, rows[..n])) + [NewEntry(env, rows[n])];
      StockAppends(es + NewEntries(env, rows[..n]), NewEntry(env, rows[n]), ts);
    }
  }

  /** Rows that are new and of the batch all end in its stock. */
  lemma NewRowsCreated(env: Env, p: Pool, batch: seq<nat>, rows: seq<Row>)
    requires NewFingerprints(env, p.entries, rows) && forall r | 0 <= r < |rows| :: rows[r].target in batch
    ensures StockOf(InsertRows(env, p.entries, rows), batch) == StockOf(p.entries, batch) + |rows|
  {
    NewRowsAppend(env, p.entries, rows);
    hide InsertRows, Stock, NewFingerprints;
    StockGrows(env, p.entries, rows, set t | t in batch);
  }

  lemma UnfoldCreated(env: Env, p: Pool, requested: seq<nat>, supply: Supply)
    requires Generous(p, supply)
    ensures var batch := LockedBatch(p.targets, set i | i in requested, |p.targets|);
            && BatchSupplied(p, batch, supply)
            && var rows := BatchRows(p, batch, supply);
               rows.Some? ==>
                 BatchCreated(env, p, requested, supply) == Max(0, StockOf(InsertRows(env, p.entries, rows.value), batch) - StockOf(p.entries, batch))
  {
    GenerousSupplies(p, LockedBatch(p.targets, set i | i in requested, |p.targets|), supply);
    hide StockOf, InsertRows, BatchRows, LockedBatch, BatchSupplied, Generous;
  }

  lemma LockedIsPrepared(env: Env, p: Pool, chunk: seq<nat>, supply: Supply)
    requires Prepared(env, p, chunk, supply)
    ensures var batch := LockedBatch(p.targets, set i | i in chunk, |p.targets|);
            Prepared(env, p, batch, supply) && Reorders(chunk, batch)
    ensures (forall i | 0 <= i < |chunk| :: chunk[i] < |p.targets|) && forall i, j | 0 <= i < j < |chunk| :: chunk[i] != chunk[j]
  {
    hide FreshSupply, Generous, LockedBatch;
    LockedIsChunk(p.targets, chunk);
    PreparedInAnyOrder(env, p, chunk, LockedBatch(p.targets, set i | i in chunk, |p.targets|), supply);
  }

  /** A batch of fresh lines creates what its targets lack. */
  lemma BatchCreatesShortage(env: Env, p: Pool, chunk: seq<nat>, supply: Supply)
    requires Prepared(env, p, chunk, supply) && Generous(p, supply)
    ensures forall i | 0 <= i < |chunk| :: chunk[i] < |p.targets|
    ensures var batch := LockedBatch(p.targets, set i | i in chunk, |p.targets|);
            BatchSupplied(p, batch, supply) && (BatchRows(p, batch, supply).Some? ==> BatchCreated(env, p, chunk, supply) == SumNeeded(p, chunk))
  {
    LockedIsPrepared(env, p, chunk, supply);
    UnfoldCreated(env, p, chunk, supply);
    var batch := LockedBatch(p.targets, set i | i in chunk, |p.targets|);
    hide *;
    UnfoldPrepared(env, p, batch, supply);
    EligibleIsDistinct(p, batch);
    if BatchRows(p, batch, supply).Some? {
      var rows := BatchRows(p, batch, supply).value;
      BatchRowsFromSupply(env, p, batch, supply);
      FreshRowsAreNew(env, p, batch, supply, rows);
      RowsNeeded(p, batch, supply);
      SumReorders(p, chunk, batch);
      BatchRowsInRange(p, batch, supply);
      NewRowsCreated(env, p, batch, rows);
      MaxOfSum(StockOf(p.entries, batch), |rows|);
    }
  }

  lemma MaxOfSum(a: nat, n: nat)
    ensures Max(0, a + n - a) == n
  {
  }

  lemma {:induction false} SameNeeds(p: Pool, q: Pool, ts: seq<nat>)
    requires forall i | 0 <= i < |ts| :: ts[i] < |p.targets| && Alike(p, q, ts[i])
    ensures (forall i | 0 <= i < |ts| :: ts[i] < |q.targets|) && SumNeeded(p, ts) == SumNeeded(q, ts)
    decreases |ts|
  {
    if ts != [] {
      hide SameJobs, Stock;
      assert Alike(p, q, ts[0]);
      SameNeeds(p, q, ts[1..]);
    }
  }

  /** The first batch leaves the later targets as it found them. */
  lemma BatchLeavesRest(env: Env, p: Pool, chunk: seq<nat>, rest: seq<nat>, supply: Supply, now: int, staleBefore: int)
    requires Generous(p, supply) && Unowned(p, chunk + rest, staleBefore) && Prepared(env, p, chunk + rest, supply)
    ensures var r := FillBatch(env, p, chunk, supply, now, staleBefore);
            r.Some? ==>
              && Generous(r.value, supply) && Prepared(env, r.value, rest, supply) && Unowned(r.value, rest, staleBefore)
              && forall i | 0 <= i < |rest| :: rest[i] < |p.targets| && Alike(p, r.value, rest[i])
  {
    var batch := LockedBatch(p.targets, set i | i in chunk, |p.targets|);
    var r := FillBatch(env, p, chunk, supply, now, staleBefore);
    hide *;
    UnfoldPrepared(env, p, chunk + rest, supply);
    FirstBatch(env, p, chunk, rest, supply, now, staleBefore);
    FreshSupplyOfSome(env, p, chunk + rest, chunk, supply);
    PreparedPart(env, p, chunk, rest, supply);
    LockedIsPrepared(env, p, chunk, supply);
    if r.Some? {
      LeftPrepared(p, r.value, rest, env, supply, staleBefore);
      forall i | 0 <= i < |rest| ensures rest[i] < |p.targets| && Alike(p, r.value, rest[i]) {
        RestIsElsewhere(p, chunk, rest, batch, i);
        InTurnLeaves(env, p, batch, supply, rest[i]);
      }
    }
  }

  lemma LeftPrepared(p: Pool, q: Pool, rest: seq<nat>, env: Env, supply: Supply, staleBefore: int)
    requires LeavesRest(p, Some(q), rest, env, supply, staleBefore)
    ensures Generous(q, supply) && Prepared(env, q, rest, supply) && Unowned(q, rest, staleBefore)
  {
    hide Generous, FreshSupply, Eligible, Unowned;
  }

  lemma PreparedPart(env: Env, p: Pool, a: seq<nat>, b: seq<nat>, supply: Supply)
    requires Prepared(env, p, a + b, supply)
    ensures Prepared(env, p, a, supply)
    ensures forall i | 0 <= i < |b| :: b[i] < |p.targets| && b[i] !in a
  {
    assert forall i | 0 <= i < |a| :: (a + b)[i] == a[i];
    assert forall i | 0 <= i < |b| :: (a + b)[|a| + i] == b[i];
    FreshSupplyOfSome(env, p, a + b, a, supply);
    hide FreshSupply, Generous, UniqueScopes;
    forall i, j | 0 <= i < |b| && 0 <= j < |a| ensures a[j] != b[i] {
      assert (a + b)[j] != (a + b)[|a| + i];
    }
  }

  lemma RestIsElsewhere(p: Pool, chunk: seq<nat>, rest: seq<nat>, batch: seq<nat>, i: nat)
    requires i < |rest| && rest[i] !in chunk && rest[i] < |p.targets| && Reorders(chunk, batch)
    ensures rest[i] !in batch
  {
  }

  /** A prefill of fresh lines that completes returns exactly what its targets lacked together. */
  lemma {:induction false} CreatedIsShortage(env: Env, p: Pool, targets: seq<nat>, size: nat, supply: Supply, now: int, staleBefore: int)
    requires size > 0 && Generous(p, supply) && Unowned(p, targets, staleBefore) && Prepared(env, p, targets, supply)
    ensures forall i | 0 <= i < |targets| :: targets[i] < |p.targets|
    ensures FillDirect(env, p, targets, size, supply, now, staleBefore).1 ==>
              DirectCreated(env, p, targets, size, supply, now, staleBefore) == SumNeeded(p, targets)
    decreases |targets|
  {
    PreparedInRange(env, p, targets, supply);
    if targets != [] {
      var chunk, rest := Take(targets, size), targets[|Take(targets, size)|..];
      assert targets == chunk + rest && |rest| < |targets|;
      var r := FillBatch(env, p, chunk, supply, now, staleBefore);
      hide *;
      PreparedPart(env, p, chunk, rest, supply);
      SumSplits(p, chunk, rest);
      BatchLeavesRest(env, p, chunk, rest, supply, now, staleBefore);
      DirectSteps(env, p, targets, chunk, rest, size, supply, now, staleBefore);
      if r.Some? {
        CreatedIsShortage(env, r.value, rest, size, supply, now, staleBefore);
        BatchReportsShortage(env, p, chunk, supply, now, staleBefore);
        SameNeeds(p, r.value, rest);
      }
    }
  }

  lemma BatchReportsShortage(env: Env, p: Pool, chunk: seq<nat>, supply: Supply, now: int, staleBefore: int)
    requires Prepared(env, p, chunk, supply) && Generous(p, supply) && FillBatch(env, p, chunk, supply, now, staleBefore).Some?
    ensures forall i | 0 <= i < |chunk| :: chunk[i] < |p.targets|
    ensures BatchCreated(env, p, chunk, supply) == SumNeeded(p, chunk)
  {
    hide *;
    BatchCreatesShortage(env, p, chunk, supply);
    CommittedHasRows(env, p, chunk, supply, now, staleBefore);
  }

  lemma PreparedInRange(env: Env, p: Pool, targets: seq<nat>, supply: Supply)
    requires Prepared(env, p, targets, supply)
    ensures forall i | 0 <= i < |targets| :: targets[i] < |p.targets|
  {
    hide FreshSupply, Generous;
  }

  lemma DirectSteps(env: Env, p: Pool, targets: seq<nat>, chunk: seq<nat>, rest: seq<nat>, size: nat, supply: Supply, now: int, staleBefore: int)
    requires size > 0 && Generous(p, supply) && targets != []
    requires chunk == Take(targets, size) && rest == targets[|chunk|..]
    ensures var r := FillBatch(env, p, chunk, supply, now, staleBefore);
            && (r.Some? ==> Generous(r.value, supply))
            && (FillDirect(env, p, targets, size, supply, now, staleBefore).1 ==>
                  && r.Some? && FillDirect(env, r.value, rest, size, supply, now, staleBefore).1
                  && DirectCreated(env, p, targets, size, supply, now, staleBefore) ==
                       BatchCreated(env, p, chunk, supply) + DirectCreated(env, r.value, rest, size, supply, now, staleBefore))
  {
    FillBatchTargets(env, p, Take(targets, size), supply, now, staleBefore);
    hide FillBatch, BatchCreated, Generous;
  }

  lemma CommittedHasRows(env: Env, p: Pool, requested: seq<nat>, supply: Supply, now: int, staleBefore: int)
    requires Generous(p, supply) && FillBatch(env, p, requested, supply, now, staleBefore).Some?
    ensures var batch := LockedBatch(p.targets, set i | i in requested, |p.targets|);
            BatchSupplied(p, batch, supply) && BatchRows(p, batch, supply).Some?
  {
    FillBatchUnfolds(env, p, requested, supply, now, staleBefore);
    hide FillBatch, BatchRows, FulfillListed, InsertRows, WaitingScopes, Generous, Owned, LockedBatch, BatchSupplied, ClaimAll, ClearAll;
  }
}
