/** Oldest-first fulfilment: what one call of `fulfill_waiting_jobs` does to the jobs of a
    target, and how counters and statuses describe the reservations. */
module ProxyPoolFulfillment {
  import opened Wrappers
  import opened Sequences
  import opened ProxyPool
  import opened ProxyPoolFacts

  /** The counter is the real count and the status says how it compares with the target. */
  ghost predicate JobSound(rs: seq<Reservation>, j: nat, job: Job) {
    var count, target := CountFor(rs, j), ReservationTarget(job);
    && job.readyCount == count <= target
    && (job.status == Ready <==> count == target)
    && (job.status == Partial <==> 0 < count < target)
    && (job.status == Waiting || job.status == Failed <==> count == 0)
  }

  ghost predicate JobsSound(p: Pool) {
    && (forall j: nat | j < |p.jobs| :: JobSound(p.reservations, j, p.jobs[j]))
    && (forall k | 0 <= k < |p.reservations| :: p.reservations[k].job < |p.jobs|)
  }

  /** Serving one job takes the oldest stock, as much as the job needs and there is. */
  lemma ServeTakesOldest(env: Env, p: Pool, t: nat, job: nat)
    requires UniqueScopes(p.targets) && t < |p.targets| && p.targets[t].active
    requires job < |p.jobs| && p.jobs[job].scope == p.targets[t].scope
    ensures var r := Serve(env, p, job);
            var k := Min(Shortage(p, job), AvailableCount(p.entries, t));
            r.Some? ==>
              && r.value.targets == p.targets && |r.value.jobs| == |p.jobs| && |r.value.entries| == |p.entries|
              && AvailableIds(r.value.entries, t) == AvailableIds(p.entries, t)[k..]
              && CountFor(r.value.reservations, job) == CountFor(p.reservations, job) + k
              && r.value.jobs[job] == p.jobs[job].(
                   readyCount := CountFor(p.reservations, job) + k,
                   status := StatusOf(CountFor(p.reservations, job) + k, ReservationTarget(p.jobs[job])))
              && |r.value.reservations| == |p.reservations| + k
              && (forall i :: 0 <= i < k ==>
                    IssuedTo(r.value.reservations[|p.reservations| + i], p.jobs[job].client, job, AvailableIds(p.entries, t)[i]))
  {
    OpenStockOfTarget(p, t);
    var ids := Take(AvailableIds(p.entries, t), Shortage(p, job));
    assert Oldest(p, {t}, ids);
    assert Reserve(env, p, job) == IssueAll(env, p, job, ids);
    hide Stock, CountFor, IssueAll, UniqueScopes, Reserve, Shortage, ReservationTarget, StatusOf, Oldest;
    IssueAllStock(env, p, job, {t}, ids);
    IssueAllReservations(env, p, job, ids);
    var k := Min(Shortage(p, job), AvailableCount(p.entries, t));
    assert ids == AvailableIds(p.entries, t)[..k] && |ids| == k;
    var q := IssueAll(env, p, job, ids);
    if q.Some? {
      assert Serve(env, p, job) == Some(Recount(q.value, job));
    }
  }

  lemma ServeLeavesOthers(env: Env, p: Pool, job: nat, other: nat)
    requires job < |p.jobs| && other != job
    ensures var r := Serve(env, p, job);
            r.Some? ==>
              && CountFor(r.value.reservations, other) == CountFor(p.reservations, other)
              && |r.value.jobs| == |p.jobs| && (other < |p.jobs| ==> r.value.jobs[other] == p.jobs[other])
              && |p.reservations| <= |r.value.reservations|
              && r.value.reservations[..|p.reservations|] == p.reservations
              && (forall k :: |p.reservations| <= k < |r.value.reservations| ==> r.value.reservations[k].job == job)
  {
    var ids := Take(OpenStock(p, p.jobs[job].scope), Shortage(p, job));
    IssueAllFrame(env, p, job, ids);
    IssueAllOthers(env, p, job, ids, other);
    IssueAllReservations(env, p, job, ids);
    var r := Serve(env, p, job);
    if r.Some? {
      forall k | |p.reservations| <= k < |r.value.reservations| ensures r.value.reservations[k].job == job {
        assert IssuedTo(r.value.reservations[|p.reservations| + (k - |p.reservations|)], p.jobs[job].client, job, ids[k - |p.reservations|]);
      }
    }
  }

  // ------------------------------------------------------------------ counters

  /** How many entries the next reservation for a job takes. */
  function Share(p: Pool, job: nat): nat
    requires job < |p.jobs|
  {
    |Take(OpenStock(p, p.jobs[job].scope), Shortage(p, job))|
  }

  /** A reservation adds to its own job, at most what the job lacks, and to no other. */
  lemma ReserveCounts(env: Env, p: Pool, job: nat)
    requires job < |p.jobs|
    ensures var q := Reserve(env, p, job);
            q.Some? ==>
              && q.value.jobs == p.jobs && q.value.targets == p.targets && |q.value.entries| == |p.entries|
              && Share(p, job) <= Shortage(p, job)
              && |q.value.reservations| == |p.reservations| + Share(p, job)
              && CountFor(q.value.reservations, job) == CountFor(p.reservations, job) + Share(p, job)
              && (forall k | 0 <= k < |q.value.reservations| ::
                    q.value.reservations[k].job == job || (k < |p.reservations| && q.value.reservations[k] == p.reservations[k]))
  {
    hide Stock, CountFor, ReservationTarget;
    var ts := ActiveTargets(p.targets, p.jobs[job].scope);
    var ids := Take(OpenStock(p, p.jobs[job].scope), Shortage(p, job));
    assert Oldest(p, ts, ids);
    IssueAllStock(env, p, job, ts, ids);
    IssueAllReservations(env, p, job, ids);
    var q := IssueAll(env, p, job, ids);
    hide IssueAll;
    if q.Some? {
      var n := |p.reservations|;
      forall k | 0 <= k < |q.value.reservations|
        ensures q.value.reservations[k].job == job || (k < n && q.value.reservations[k] == p.reservations[k])
      {
        if k < n {
          assert q.value.reservations[..n][k] == q.value.reservations[k];
        } else {
          assert IssuedTo(q.value.reservations[n + (k - n)], p.jobs[job].client, job, ids[k - n]);
        }
      }
    }
  }

  lemma ReserveLeavesOthers(env: Env, p: Pool, job: nat, other: nat)
    requires job < |p.jobs| && other != job
    ensures var q := Reserve(env, p, job); q.Some? ==> CountFor(q.value.reservations, other) == CountFor(p.reservations, other)
  {
    IssueAllOthers(env, p, job, Take(OpenStock(p, p.jobs[job].scope), Shortage(p, job)), other);
  }

  lemma RecountIsSound(p: Pool, job: nat)
    requires job < |p.jobs| && CountFor(p.reservations, job) <= ReservationTarget(p.jobs[job])
    ensures JobSound(p.reservations, job, Recount(p, job).jobs[job])
  {
  }

  lemma ServeKeeps(env: Env, p: Pool, job: nat)
    requires JobsSound(p) && job < |p.jobs|
    ensures var r := Serve(env, p, job); r.Some? ==> JobsSound(r.value) && |r.value.jobs| == |p.jobs|
  {
    hide CountFor, OpenStock, Reserve, ReservationTarget, JobSound;
    ReserveCounts(env, p, job);
    var q := Reserve(env, p, job);
    if q.Some? {
      var r := Recount(q.value, job);
      assert CountFor(q.value.reservations, job) <= ReservationTarget(p.jobs[job]) by {
        assert JobSound(p.reservations, job, p.jobs[job]);
        WithinTarget(p.reservations, job, p.jobs[job]);
      }
      RecountIsSound(q.value, job);
      forall j: nat | j < |r.jobs| ensures JobSound(r.reservations, j, r.jobs[j]) {
        if j != job {
          assert JobSound(p.reservations, j, p.jobs[j]);
          ReserveLeavesOthers(env, p, job, j);
          SoundByCount(p.reservations, r.reservations, j, p.jobs[j]);
        }
      }
    }
  }

  lemma WithinTarget(rs: seq<Reservation>, j: nat, job: Job)
    requires JobSound(rs, j, job)
    ensures CountFor(rs, j) <= ReservationTarget(job)
  {
  }

  lemma SoundByCount(rs: seq<Reservation>, qs: seq<Reservation>, j: nat, job: Job)
    requires JobSound(rs, j, job) && CountFor(qs, j) == CountFor(rs, j)
    ensures JobSound(qs, j, job)
  {
  }

  // ------------------------------------------------------------------ caps

  /** No job has more reservations than it asked for, and each belongs to a job. */
  ghost predicate Capped(p: Pool) {
    && (forall k | 0 <= k < |p.reservations| :: p.reservations[k].job < |p.jobs|)
    && (forall j: nat | j < |p.jobs| :: CountFor(p.reservations, j) <= ReservationTarget(p.jobs[j]))
  }

  lemma SameDemandCapped(p: Pool, q: Pool)
    requires Capped(p) && q.reservations == p.reservations && |q.jobs| == |p.jobs|
    requires forall j | 0 <= j < |p.jobs| :: ReservationTarget(q.jobs[j]) == ReservationTarget(p.jobs[j])
    ensures Capped(q)
  {
  }

  /** A reservation takes at most what its job still lacks. */
  lemma ReserveCaps(env: Env, p: Pool, job: nat)
    requires Capped(p) && job < |p.jobs|
    ensures var q := Reserve(env, p, job); q.Some? ==> Capped(q.value) && q.value.jobs == p.jobs && q.value.targets == p.targets
  {
    hide CountFor, OpenStock, Reserve, ReservationTarget;
    ReserveCounts(env, p, job);
    var q := Reserve(env, p, job);
    if q.Some? {
      forall j: nat | j < |p.jobs| ensures CountFor(q.value.reservations, j) <= ReservationTarget(p.jobs[j]) {
        if j != job {
          ReserveLeavesOthers(env, p, job, j);
        }
      }
    }
  }

  /** Serving a job writes its true count and the matching status, whatever they were before. */
  lemma ServeCaps(env: Env, p: Pool, job: nat)
    requires Capped(p) && job < |p.jobs|
    ensures var r := Serve(env, p, job);
            r.Some? ==> Capped(r.value) && |r.value.jobs| == |p.jobs| && JobSound(r.value.reservations, job, r.value.jobs[job])
  {
    ReserveCaps(env, p, job);
    var q := Reserve(env, p, job);
    if q.Some? {
      RecountIsSound(q.value, job);
      hide Capped, Reserve, JobSound, CountFor;
      SameDemandCapped(q.value, Recount(q.value, job));
    }
  }

  // ------------------------------------------------------------------ order

  /** The job has in `q` all it asked for, and says so. */
  ghost predicate IsFull(p: Pool, q: Pool, j: nat)
    requires j < |p.jobs| && j < |q.jobs|
  {
    CountFor(q.reservations, j) == ReservationTarget(p.jobs[j]) && q.jobs[j].status == Ready
  }

  /** `q` follows from `p` by serving the jobs `js` of target `t` in their order. */
  ghost predicate ServedInOrder(p: Pool, q: Pool, t: nat, js: seq<nat>) {
    && (forall a, b | 0 <= a < b < |js| ::
          CountFor(q.reservations, js[b]) > CountFor(p.reservations, js[b]) ==>
            js[a] < |p.jobs| == |q.jobs| && IsFull(p, q, js[a]))
    && (forall j: nat | j !in js ::
          CountFor(q.reservations, j) == CountFor(p.reservations, j) && (j < |p.jobs| == |q.jobs| ==> q.jobs[j] == p.jobs[j]))
  }

  /** Exactly the first entries of the stock were issued, in stock order. */
  ghost predicate IssuedInOrder(p: Pool, q: Pool, t: nat) {
    && |p.reservations| <= |q.reservations| && q.reservations[..|p.reservations|] == p.reservations
    && |q.reservations| - |p.reservations| <= AvailableCount(p.entries, t)
    && AvailableIds(q.entries, t) == AvailableIds(p.entries, t)[|q.reservations| - |p.reservations|..]
    && (forall i :: 0 <= i < |q.reservations| - |p.reservations| ==>
          q.reservations[|p.reservations| + i].entry == Some(AvailableIds(p.entries, t)[i]))
  }

  ghost predicate JobList(p: Pool, t: nat, js: seq<nat>)
    requires t < |p.targets|
  {
    && (forall a, b :: 0 <= a < b < |js| ==> js[a] < js[b])
    && (forall a :: 0 <= a < |js| ==> js[a] < |p.jobs| && p.jobs[js[a]].scope == p.targets[t].scope)
  }

  lemma IssuedInOrderChains(p: Pool, q: Pool, r: Pool, t: nat)
    requires IssuedInOrder(p, q, t) && IssuedInOrder(q, r, t)
    ensures IssuedInOrder(p, r, t)
  {
    var n, m := |p.reservations|, |q.reservations|;
    assert r.reservations[..n] == r.reservations[..m][..n];
    forall i | 0 <= i < |r.reservations| - n ensures r.reservations[n + i].entry == Some(AvailableIds(p.entries, t)[i]) {
      if n + i < m {
        assert r.reservations[n + i] == r.reservations[..m][n + i];
      } else {
        assert r.reservations[m + (n + i - m)].entry == Some(AvailableIds(q.entries, t)[n + i - m]);
      }
    }
  }

  /** `q` follows from `p` by serving job `h` of target `t`. */
  ghost predicate ServedOne(p: Pool, q: Pool, t: nat, h: nat) {
    && h < |p.jobs| == |q.jobs| && q.targets == p.targets && Capped(q) && IssuedInOrder(p, q, t)
    && (forall j: nat | j != h ::
          CountFor(q.reservations, j) == CountFor(p.reservations, j) && (j < |p.jobs| ==> q.jobs[j] == p.jobs[j]))
    && (forall j: nat | j < |p.jobs| ::
          q.jobs[j].scope == p.jobs[j].scope && ReservationTarget(q.jobs[j]) == ReservationTarget(p.jobs[j]))
    && (AvailableCount(q.entries, t) != 0 ==> IsFull(p, q, h))
  }

  lemma ServeIssuesInOrder(env: Env, p: Pool, t: nat, h: nat)
    requires UniqueScopes(p.targets) && t < |p.targets| && p.targets[t].active
    requires h < |p.jobs| && p.jobs[h].scope == p.targets[t].scope
    ensures var r := Serve(env, p, h); r.Some? ==> IssuedInOrder(p, r.value, t)
  {
    ServeTakesOldest(env, p, t, h);
    ServeLeavesOthers(env, p, h, h + 1);
    hide Serve, Stock, CountFor, ReservationTarget, UniqueScopes, Shortage;
    var r := Serve(env, p, h);
    if r.Some? {
      var q := r.value;
      forall i | 0 <= i < |q.reservations| - |p.reservations|
        ensures q.reservations[|p.reservations| + i].entry == Some(AvailableIds(p.entries, t)[i])
      {
        assert IssuedTo(q.reservations[|p.reservations| + i], p.jobs[h].client, h, AvailableIds(p.entries, t)[i]);
      }
    }
  }

  lemma ServesOne(env: Env, p: Pool, t: nat, h: nat)
    requires UniqueScopes(p.targets) && t < |p.targets| && p.targets[t].active && Capped(p)
    requires h < |p.jobs| && p.jobs[h].scope == p.targets[t].scope
    ensures var r := Serve(env, p, h); r.Some? ==> ServedOne(p, r.value, t, h)
  {
    hide Serve, Stock, CountFor, UniqueScopes, IssuedInOrder, ReservationTarget;
    ServeIssuesInOrder(env, p, t, h);
    ServeTakesOldest(env, p, t, h);
    ServeCaps(env, p, h);
    assert CountFor(p.reservations, h) <= ReservationTarget(p.jobs[h]);
    hide Capped;
    var r := Serve(env, p, h);
    if r.Some? {
      var q := r.value;
      forall j: nat | j != h
        ensures CountFor(q.reservations, j) == CountFor(p.reservations, j)
        ensures j < |p.jobs| ==> q.jobs[j] == p.jobs[j]
      {
        ServeLeavesOthers(env, p, h, j);
      }
      assert ReservationTarget(q.jobs[h]) == ReservationTarget(p.jobs[h]) by {
        SameTarget(p.jobs[h], q.jobs[h]);
      }
      if AvailableCount(q.entries, t) != 0 {
        assert CountFor(q.reservations, h) == ReservationTarget(p.jobs[h]);
        assert q.jobs[h].status == Ready;
      }
    }
  }

  lemma SameTarget(a: Job, b: Job)
    ensures b == a.(readyCount := b.readyCount, status := b.status) ==> ReservationTarget(b) == ReservationTarget(a)
  {
  }

  /** What serving a list of jobs ends in. */
  ghost predicate ServedList(p: Pool, o: Outcome, t: nat, js: seq<nat>) {
    && Capped(o.pool) && |o.pool.jobs| == |p.jobs|
    && ServedInOrder(p, o.pool, t, js)
    && IssuedInOrder(p, o.pool, t)
    && (o.Done? ==>
          AvailableIds(o.pool.entries, t) == [] ||
          forall a | 0 <= a < |js| :: js[a] < |p.jobs| && IsFull(p, o.pool, js[a]))
  }

  lemma FullInBoth(p: Pool, q: Pool, r: Pool, j: nat)
    requires j < |p.jobs| && j < |q.jobs| && j < |r.jobs| && ReservationTarget(q.jobs[j]) == ReservationTarget(p.jobs[j])
    ensures IsFull(q, r, j) <==> IsFull(p, r, j)
  {
  }

  lemma ServedInOrderExtends(p: Pool, q: Pool, r: Pool, t: nat, js: seq<nat>)
    requires t < |p.targets| && js != [] && JobList(p, t, js) && |r.jobs| == |p.jobs|
    requires ServedOne(p, q, t, js[0]) && AvailableCount(q.entries, t) != 0 && ServedInOrder(q, r, t, js[1..])
    ensures ServedInOrder(p, r, t, js) && IsFull(p, r, js[0])
  {
    var h, rest := js[0], js[1..];
    hide CountFor, ReservationTarget, IssuedInOrder, Capped, AvailableCount;
    assert h !in rest;
    assert forall b :: 0 < b < |js| ==> js[b] == rest[b - 1] && js[b] != h;
    assert CountFor(r.reservations, h) == CountFor(q.reservations, h) && r.jobs[h] == q.jobs[h];
    assert IsFull(p, r, h);
    hide IsFull;
    forall a, b | 0 <= a < b < |js| && CountFor(r.reservations, js[b]) > CountFor(p.reservations, js[b])
      ensures IsFull(p, r, js[a])
    {
      if a > 0 {
        assert IsFull(q, r, rest[a - 1]);
        FullInBoth(p, q, r, js[a]);
      }
    }
    assert forall j :: j in js <==> j == h || j in rest;
  }

  lemma ServedListExtends(p: Pool, q: Pool, o: Outcome, t: nat, js: seq<nat>)
    requires t < |p.targets| && js != [] && JobList(p, t, js)
    requires ServedOne(p, q, t, js[0]) && AvailableCount(q.entries, t) != 0 && ServedList(q, o, t, js[1..])
    ensures ServedList(p, o, t, js)
  {
    ServedInOrderExtends(p, q, o.pool, t, js);
    IssuedInOrderChains(p, q, o.pool, t);
    hide CountFor, ReservationTarget, IssuedInOrder, Capped, IsFull, ServedInOrder, AvailableIds;
    forall a | 0 < a < |js| ensures js[a] == js[1..][a - 1] && (IsFull(q, o.pool, js[a]) <==> IsFull(p, o.pool, js[a])) {
      FullInBoth(p, q, o.pool, js[a]);
    }
  }

  lemma NobodyServed(p: Pool, o: Outcome, t: nat, js: seq<nat>)
    requires Capped(p) && o.pool == p && (js == [] || o.Raised?)
    ensures ServedList(p, o, t, js)
  {
    assert AvailableIds(p.entries, t)[0..] == AvailableIds(p.entries, t);
    hide CountFor, ReservationTarget, Stock;
  }

  /** The stock runs out with the first job. */
  lemma OneServed(p: Pool, q: Pool, t: nat, js: seq<nat>)
    requires js != [] && ServedOne(p, q, t, js[0]) && AvailableCount(q.entries, t) == 0 && forall a, b :: 0 <= a < b < |js| ==> js[a] < js[b]
    ensures ServedList(p, Done(q), t, js)
  {
    hide CountFor, ReservationTarget, IssuedInOrder, Capped, IsFull, Stock;
  }

  /** The first job of the list and what follows. */
  lemma ServeAllBegins(env: Env, p: Pool, t: nat, js: seq<nat>)
    requires js != [] && forall i :: 0 <= i < |js| ==> js[i] < |p.jobs|
    ensures var r := Serve(env, p, js[0]);
            if r.None? then ServeAll(env, p, t, js) == Raised(p)
            else if AvailableCount(r.value.entries, t) == 0 then ServeAll(env, p, t, js) == Done(r.value)
            else |r.value.jobs| == |p.jobs| && ServeAll(env, p, t, js) == ServeAll(env, r.value, t, js[1..])
  {
    IssueAllFrame(env, p, js[0], Take(OpenStock(p, p.jobs[js[0]].scope), Shortage(p, js[0])));
    hide Serve, Stock;
  }

  lemma LaterList(p: Pool, q: Pool, t: nat, js: seq<nat>)
    requires t < |p.targets| && js != [] && JobList(p, t, js) && ServedOne(p, q, t, js[0])
    ensures q.targets == p.targets && Capped(q) && JobList(q, t, js[1..])
  {
    hide CountFor, ReservationTarget, IssuedInOrder, Capped, IsFull, Stock;
  }

  lemma ListInRange(p: Pool, t: nat, js: seq<nat>)
    requires t < |p.targets| && JobList(p, t, js)
    ensures forall i :: 0 <= i < |js| ==> js[i] < |p.jobs| && p.jobs[js[i]].scope == p.targets[t].scope
    ensures forall a, b :: 0 <= a < b < |js| ==> js[a] < js[b]
  {
  }

  lemma {:induction false} ServeAllOldestFirst(env: Env, p: Pool, t: nat, js: seq<nat>)
    requires UniqueScopes(p.targets) && t < |p.targets| && p.targets[t].active && Capped(p) && JobList(p, t, js)
    ensures ServedList(p, ServeAll(env, p, t, js), t, js)
    decreases |js|
  {
    ListInRange(p, t, js);
    if js == [] {
      NobodyServed(p, Done(p), t, js);
    } else {
      hide *;
      ServesOne(env, p, t, js[0]);
      ServeAllBegins(env, p, t, js);
      var r := Serve(env, p, js[0]);
      if r.None? {
        NobodyServed(p, Raised(p), t, js);
      } else if AvailableCount(r.value.entries, t) == 0 {
        OneServed(p, r.value, t, js);
      } else {
        LaterList(p, r.value, t, js);
        ServeAllOldestFirst(env, r.value, t, js[1..]);
        ServedListExtends(p, r.value, ServeAll(env, r.value, t, js[1..]), t, js);
      }
    }
  }

  /** `js` are the unfinished jobs of target `t`, oldest first. */
  ghost predicate UnfinishedList(p: Pool, t: nat, js: seq<nat>)
    requires t < |p.targets|
  {
    JobList(p, t, js) && forall j: nat :: j in js <==> j < |p.jobs| && Unfinished(p.jobs[j], p.targets[t].scope)
  }

  lemma FulfillServesList(env: Env, p: Pool, t: nat) returns (js: seq<nat>)
    requires UniqueScopes(p.targets) && t < |p.targets| && p.targets[t].active && Capped(p)
    ensures UnfinishedList(p, t, js) && ServedList(p, Fulfill(env, p, t), t, js)
    ensures forall j: nat | j < |p.jobs| == |Fulfill(env, p, t).pool.jobs| ::
              ReservationTarget(Fulfill(env, p, t).pool.jobs[j]) == ReservationTarget(p.jobs[j])
  {
    js := UnfinishedJobs(p.jobs, p.targets[t].scope, |p.jobs|);
    UnfinishedComplete(p.jobs, p.targets[t].scope, |p.jobs|);
    UnfinishedInRange(p.jobs, p.targets[t].scope, |p.jobs|);
    hide ServedList, Capped, ServeAll, UniqueScopes, UnfinishedJobs;
    ServeAllOldestFirst(env, p, t, js);
    ServedAreKept(env, p, t, js);
  }

  lemma OlderIsFull(p: Pool, q: Pool, t: nat, js: seq<nat>, i: nat, j: nat)
    requires t < |p.targets| && UnfinishedList(p, t, js) && ServedInOrder(p, q, t, js)
    requires i < j < |p.jobs| && Unfinished(p.jobs[i], p.targets[t].scope)
    requires CountFor(q.reservations, j) > CountFor(p.reservations, j)
    ensures |q.jobs| == |p.jobs| && IsFull(p, q, i)
  {
    hide CountFor, ReservationTarget, Unfinished, IsFull;
    assert i in js && j in js;
    var a :| 0 <= a < |js| && js[a] == i;
    var b :| 0 <= b < |js| && js[b] == j;
    assert a < b;
  }

  /** One call on an active target, whatever the jobs' counters said before: whoever gained a
      proxy, every older unfinished job of the scope is full and ready; the oldest stock went
      out first; and nothing is left over while a job is still short. */
  lemma FulfillsOldestFirst(env: Env, p: Pool, t: nat)
    requires UniqueScopes(p.targets) && t < |p.targets| && p.targets[t].active && Capped(p)
    ensures var o := Fulfill(env, p, t);
            && Capped(o.pool) && |o.pool.jobs| == |p.jobs|
            && (forall i: nat, j: nat | i < j < |p.jobs| ::
                  Unfinished(p.jobs[i], p.targets[t].scope) && CountFor(o.pool.reservations, j) > CountFor(p.reservations, j) ==>
                    o.pool.jobs[i].status == Ready && CountFor(o.pool.reservations, i) == ReservationTarget(p.jobs[i]))
            && (forall j: nat | j < |p.jobs| :: !Unfinished(p.jobs[j], p.targets[t].scope) ==>
                  o.pool.jobs[j] == p.jobs[j] && CountFor(o.pool.reservations, j) == CountFor(p.reservations, j))
            && IssuedInOrder(p, o.pool, t)
            && (o.Done? ==>
                  AvailableIds(o.pool.entries, t) == [] ||
                  forall j: nat | j < |p.jobs| :: Unfinished(p.jobs[j], p.targets[t].scope) ==> o.pool.jobs[j].status == Ready)
  {
    var js := FulfillServesList(env, p, t);
    var o := Fulfill(env, p, t);
    hide Fulfill, AvailableIds, Capped, IssuedInOrder, UniqueScopes, CountFor, ReservationTarget, Unfinished, JobList;
    forall i: nat, j: nat | i < j < |p.jobs| && Unfinished(p.jobs[i], p.targets[t].scope) &&
                            CountFor(o.pool.reservations, j) > CountFor(p.reservations, j)
      ensures IsFull(p, o.pool, i)
    {
      OlderIsFull(p, o.pool, t, js, i, j);
    }
    if o.Done? && AvailableIds(o.pool.entries, t) != [] {
      forall j: nat | j < |p.jobs| && Unfinished(p.jobs[j], p.targets[t].scope) ensures IsFull(p, o.pool, j) {
        assert j in js;
        var a :| 0 <= a < |js| && js[a] == j;
      }
    }
  }

  /** Serving rewrites only counters and statuses of jobs. */
  lemma {:induction false} ServedAreKept(env: Env, p: Pool, t: nat, js: seq<nat>)
    requires forall a :: 0 <= a < |js| ==> js[a] < |p.jobs|
    ensures var q := ServeAll(env, p, t, js).pool;
            |q.jobs| == |p.jobs| &&
            forall j: nat | j < |p.jobs| :: q.jobs[j] == p.jobs[j].(readyCount := q.jobs[j].readyCount, status := q.jobs[j].status)
    decreases |js|
  {
    if js != [] {
      IssueAllFrame(env, p, js[0], Take(OpenStock(p, p.jobs[js[0]].scope), Shortage(p, js[0])));
      var r := Serve(env, p, js[0]);
      if r.Some? {
        ServedAreKept(env, r.value, t, js[1..]);
      }
    }
  }
}
