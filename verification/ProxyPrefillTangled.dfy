/** Two targets whose repairs run into each other: the order in which a prefill takes them, and
    so its batch size, decides whether it completes. */
module ProxyPrefillTangled {
  import opened Wrappers
  import opened Sequences
  import opened ProxyPool
  import opened ProxyPoolFacts
  import opened ProxyPrefill
  import opened ProxyPrefillRefinement

  /** Two scopes with one line in stock each: the repair of the first line gives the second, and
      that of the second a third. */
  datatype Knot = Knot(north: Scope, south: Scope, first: string, second: string, third: string)

  ghost predicate Ties(env: Env, x: Knot) {
    && x.north != x.south
    && env.repair(x.north, x.first) == x.second && env.repair(x.south, x.second) == x.third
    && env.digest(x.first) != env.digest(x.second) && env.digest(x.second) != env.digest(x.third) && env.digest(x.first) != env.digest(x.third)
  }

  function Rows(x: Knot): (rows: seq<Target>)
    ensures |rows| == 2 && rows[0].active && rows[1].active && rows[0].scope == x.north && rows[1].scope == x.south
  {
    [Target(x.north, 1, 1, true, false, None), Target(x.south, 1, 1, true, false, None)]
  }

  function InStockOf(env: Env, t: nat, line: string): Entry {
    Entry(t, env.digest(line), line, Available, None)
  }

  /** Both lines in stock, and a job waiting for each. */
  function Tied(env: Env, x: Knot): Pool {
    Pool(Rows(x),
         [InStockOf(env, 0, x.first), InStockOf(env, 1, x.second)],
         [Job(0, x.north, 1, 1, 0, Waiting), Job(1, x.south, 1, 1, 0, Waiting)],
         [])
  }

  /** The tables once the second target is fulfilled: its line is repaired out of the way. */
  function Loosened(env: Env, x: Knot): Pool {
    Pool(Rows(x),
         [InStockOf(env, 0, x.first), Entry(1, env.digest(x.third), x.third, Reserved, Some(1))],
         [Job(0, x.north, 1, 1, 0, Waiting), Job(1, x.south, 1, 1, 1, Ready)],
         [Reservation(1, 1, Some(1), env.digest(x.third), x.third)])
  }

  function Nothing(t: nat): Option<seq<string>> {
    None
  }

  // ------------------------------------------------------------------ two orders

  lemma OneChunk(targets: seq<nat>, size: nat)
    requires |targets| == 2 && size >= 2
    ensures Take(targets, size) == targets && targets[|Take(targets, size)|..] == []
  {
  }

  lemma FirstOf(x: nat, rest: seq<nat>)
    ensures Take([x] + rest, 1) == [x] && ([x] + rest)[1..] == rest
  {
  }

  lemma OneBatch(rows: seq<Target>, targets: seq<nat>, batch: seq<nat>, size: nat)
    requires size > 0 && targets != [] && batch == LockedBatch(rows, set i | i in Take(targets, size), |rows|)
    ensures ProcessingOrder(rows, targets, size) == batch + ProcessingOrder(rows, targets[|Take(targets, size)|..], size)
  {
    hide LockedBatch;
  }

  /** Batches of one keep the given order. */
  lemma OneByOne(rows: seq<Target>, a: nat, b: nat)
    requires a < |rows| && b < |rows| && rows[a].active && rows[b].active
    ensures ProcessingOrder(rows, [a, b], 1) == [a, b]
  {
    hide *;
    ChunkIsItsBatch(rows, [a]);
    ChunkIsItsBatch(rows, [b]);
    assert [a] + [b] == [a, b] && [b] + [] == [b];
    FirstOf(a, [b]);
    FirstOf(b, []);
    OneBatch(rows, [a, b], [a], 1);
    OneBatch(rows, [b], [b], 1);
    NoBatch(rows, 1);
  }

  lemma NoBatch(rows: seq<Target>, size: nat)
    requires size > 0
    ensures ProcessingOrder(rows, [], size) == []
  {
  }

  /** One batch takes both in key order. */
  lemma BothAtOnce(rows: seq<Target>)
    requires |rows| == 2 && rows[0].active && rows[1].active
    ensures ProcessingOrder(rows, [1, 0], 2) == [0, 1]
  {
    ChunkIsItsBatch(rows, [0, 1]);
    OneChunk([1, 0], 2);
    hide LockedBatch, ProcessingOrder;
    assert (set i | i in [1, 0]) == (set i | i in [0, 1]) by {
      assert forall i :: i in [1, 0] <==> i in [0, 1];
    }
    OneBatch(rows, [1, 0], [0, 1], 2);
    NoBatch(rows, 2);
    assert [0, 1] + [] == [0, 1];
  }

  // ------------------------------------------------------------------ one fulfilment at a time

  /** Fulfilling a target with one job that lacks one line and one line in stock. */
  lemma FulfillsOne(env: Env, p: Pool, t: nat, h: nat, id: nat)
    requires t < |p.targets| && h < |p.jobs| && id < |p.entries| && p.jobs[h].scope == p.targets[t].scope
    requires UnfinishedJobs(p.jobs, p.targets[t].scope, |p.jobs|) == [h]
    requires OpenStock(p, p.jobs[h].scope) == [id] && Shortage(p, h) == 1
    ensures var x := IssueOne(env, p, h, id);
            Fulfill(env, p, t) == if x.None? then Raised(p) else Done(Recount(x.value, h))
  {
    var x := IssueOne(env, p, h, id);
    assert Take([id], 1) == [id] && [id][1..] == [] && [h][1..] == [];
    assert Reserve(env, p, h) == IssueAll(env, p, h, [id]) == if x.None? then None else Some(x.value);
    if x.Some? {
      assert x.value.jobs == p.jobs;
      var q := Recount(x.value, h);
      assert Serve(env, p, h) == Some(q);
      assert ServeAll(env, q, t, []) == Done(q);
    }
  }

  lemma TiedStock(es: seq<Entry>)
    requires |es| == 2 && es[0].target == 0 && es[0].state == Available && es[1].target == 1
    ensures AvailableIds(es, 0) == [0]
    ensures es[1].state == Available ==> AvailableIds(es, 1) == [1]
  {
    assert Stock(es, {0}, 0) == [] && Stock(es, {1}, 0) == [];
    assert Stock(es, {0}, 1) == [0] && Stock(es, {1}, 1) == [];
  }

  lemma TiedJobs(jobs: seq<Job>, north: Scope, south: Scope)
    requires north != south && |jobs| == 2 && jobs[0] == Job(0, north, 1, 1, 0, Waiting) && jobs[1].scope == south
    ensures UnfinishedJobs(jobs, north, 2) == [0]
    ensures jobs[1].status == Waiting ==> UnfinishedJobs(jobs, south, 2) == [1]
  {
    assert UnfinishedJobs(jobs, north, 0) == [] && UnfinishedJobs(jobs, south, 0) == [];
    assert UnfinishedJobs(jobs, north, 1) == [0] && UnfinishedJobs(jobs, south, 1) == [];
  }

  lemma NothingIsFresh(env: Env, p: Pool, ts: seq<nat>)
    requires forall a | 0 <= a < |ts| :: ts[a] < |p.targets|
    ensures FreshSupply(env, p, ts, Nothing) && Generous(p, Nothing)
  {
    assert forall t: nat :: Lines(Nothing, t) == [];
    hide Lines;
  }

  lemma TiedIsPrepared(env: Env, x: Knot)
    requires Ties(env, x)
    ensures Eligible(Tied(env, x), [1, 0]) && Generous(Tied(env, x), Nothing) && FreshSupply(env, Tied(env, x), [1, 0], Nothing)
    ensures Unowned(Tied(env, x), [1, 0], 0)
  {
    assert !Owned(Rows(x)[0], 0) && !Owned(Rows(x)[1], 0);
    hide FreshSupply, Generous, Owned;
    NothingIsFresh(env, Tied(env, x), [1, 0]);
  }

  /** In key order the first repair meets the second line and is refused. */
  lemma NorthFirstFails(env: Env, x: Knot)
    requires Ties(env, x)
    ensures Fulfill(env, Tied(env, x), 0).Raised? && Needed(Tied(env, x), 0) == 0
  {
    var p := Tied(env, x);
    TiedStock(p.entries);
    TiedJobs(p.jobs, x.north, x.south);
    OpenStockOfTarget(p, 0);
    assert CountFor([], 0) == 0 && Shortage(p, 0) == 1;
    hide Stock, UnfinishedJobs, UniqueScopes;
    assert p.entries[1].fingerprint == env.digest(x.second) && Live(p.entries[1]);
    assert FingerprintUsed(p.entries, env.digest(x.second), 0);
    assert IssueOne(env, p, 0, 0).None?;
    FulfillsOne(env, p, 0, 0, 0);
  }

  lemma SouthFirst(env: Env, x: Knot)
    requires Ties(env, x)
    ensures Fulfill(env, Tied(env, x), 1) == Done(Loosened(env, x)) && Needed(Tied(env, x), 1) == 0
  {
    var p, q := Tied(env, x), Loosened(env, x);
    TiedStock(p.entries);
    TiedJobs(p.jobs, x.north, x.south);
    OpenStockOfTarget(p, 1);
    assert CountFor([], 1) == 0 && Shortage(p, 1) == 1;
    hide Stock, UnfinishedJobs, UniqueScopes;
    assert !FingerprintUsed(p.entries, env.digest(x.third), 1);
    var y := IssueOne(env, p, 1, 1);
    assert y.Some? && y.value.entries == q.entries && y.value.reservations == q.reservations;
    assert q.reservations[..0] == [] && CountFor(q.reservations, 1) == 1;
    assert Recount(y.value, 1) == q;
    FulfillsOne(env, p, 1, 1, 1);
  }

  lemma ThenNorth(env: Env, x: Knot)
    requires Ties(env, x)
    ensures Fulfill(env, Loosened(env, x), 0).Done? && Needed(Loosened(env, x), 0) == 0
  {
    var p := Loosened(env, x);
    TiedStock(p.entries);
    TiedJobs(p.jobs, x.north, x.south);
    OpenStockOfTarget(p, 0);
    assert p.reservations[..0] == [] && CountFor(p.reservations, 0) == 0 && Shortage(p, 0) == 1;
    hide Stock, UnfinishedJobs, UniqueScopes;
    assert !FingerprintUsed(p.entries, env.digest(x.second), 0) && !FingerprintIssued(p.reservations, env.digest(x.second));
    assert IssueOne(env, p, 0, 0).Some?;
    FulfillsOne(env, p, 0, 0, 0);
  }

  /** A refill of a full target only fulfils. */
  lemma FullRefill(env: Env, p: Pool, t: nat)
    requires t < |p.targets| && p.targets[t].active && Needed(p, t) == 0
    ensures Refill(env, p, t, Nothing(t)).Done? == Fulfill(env, p, t).Done?
    ensures Fulfill(env, p, t).Done? ==>
              Refill(env, p, t, Nothing(t)).pool == Fulfill(env, p, t).pool.(targets := ClearClaim(p.targets, t))
  {
    RefillUnfolds(env, p, p, t, Nothing(t));
  }

  lemma NoSupply(p: Pool)
    ensures Generous(p, Nothing)
  {
  }

  lemma EmptyTurn(env: Env, p: Pool, supply: Supply)
    requires Generous(p, supply)
    ensures InTurn(env, p, [], supply) == Some(p)
  {
  }

  lemma NorthFirstStops(env: Env, x: Knot)
    requires Ties(env, x)
    ensures Generous(Tied(env, x), Nothing) && InTurn(env, Tied(env, x), [0, 1], Nothing).None?
  {
    var p := Tied(env, x);
    NorthFirstFails(env, x);
    NoSupply(p);
    assert p.targets[0].active;
    hide Fulfill, Refill, Needed, InTurn, Generous;
    FullRefill(env, p, 0);
    InTurnUnfolds(env, p, [0, 1], Nothing);
  }

  lemma SouthFirstCompletes(env: Env, x: Knot)
    requires Ties(env, x)
    ensures Generous(Tied(env, x), Nothing) && InTurn(env, Tied(env, x), [1, 0], Nothing).Some?
  {
    var p, q := Tied(env, x), Loosened(env, x);
    SouthFirst(env, x);
    ThenNorth(env, x);
    NoSupply(p);
    NoSupply(q);
    assert p.targets[1].active && q.targets[0].active && ClearClaim(Rows(x), 1) == Rows(x);
    assert q.(targets := Rows(x)) == q && p.targets == Rows(x);
    assert [1, 0][1..] == [0] && [0][1..] == [];
    hide Fulfill, Refill, Needed, InTurn, Generous, Tied, Loosened;
    FullRefill(env, p, 1);
    FullRefill(env, q, 0);
    InTurnUnfolds(env, p, [1, 0], Nothing);
    InTurnUnfolds(env, q, [0], Nothing);
    EmptyTurn(env, Refill(env, q, 0, Nothing(0)).pool, Nothing);
  }

  /** When a repair gives a line that another target still stocks, the batch size decides
      whether the prefill completes: it does when the other line is repaired first. */
  lemma TangledRepairsShowTheSize(env: Env, x: Knot, now: int)
    requires Ties(env, x)
    ensures Eligible(Tied(env, x), [1, 0]) && Generous(Tied(env, x), Nothing) && FreshSupply(env, Tied(env, x), [1, 0], Nothing)
    ensures Unowned(Tied(env, x), [1, 0], 0)
    ensures FillDirect(env, Tied(env, x), [1, 0], 1, Nothing, now, 0).1
    ensures !FillDirect(env, Tied(env, x), [1, 0], 2, Nothing, now, 0).1
  {
    TiedIsPrepared(env, x);
    var p := Tied(env, x);
    assert p.targets == Rows(x);
    hide *;
    OneByOne(p.targets, 1, 0);
    BothAtOnce(p.targets);
    PrefillEqualsRefillsInTurn(env, p, [1, 0], 1, Nothing, now, 0);
    PrefillEqualsRefillsInTurn(env, p, [1, 0], 2, Nothing, now, 0);
    NorthFirstStops(env, x);
    SouthFirstCompletes(env, x);
  }
}
