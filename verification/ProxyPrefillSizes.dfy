/** Exactly when two batch sizes of a prefill leave the same tables, and where each stops. */
module ProxyPrefillSizes {
  import opened Wrappers
  import opened Sequences
  import opened ProxyPool
  import opened ProxyPoolFacts
  import opened ProxyPoolFulfillment
  import opened ProxyPoolLines
  import opened ProxyPrefill
  import opened ProxyPrefillRefinement
  import opened ProxyPoolSound
  import opened ProxyPrefillOrder
  import opened ProxyPrefillCompletion
  import opened ProxyPrefillFailure

  // ------------------------------------------------------------------ refills that change nothing

  /** No unfinished job of the target would be given anything or have its counters rewritten. */
  predicate Quiet(p: Pool, t: nat)
    requires t < |p.targets|
  {
    UnfinishedInRange(p.jobs, p.targets[t].scope, |p.jobs|);
    var js := UnfinishedJobs(p.jobs, p.targets[t].scope, |p.jobs|);
    js == [] ||
    (&& AvailableCount(p.entries, t) == 0
     && p.jobs[js[0]].readyCount == CountFor(p.reservations, js[0])
     && p.jobs[js[0]].status == StatusOf(p.jobs[js[0]].readyCount, ReservationTarget(p.jobs[js[0]])))
  }

  /** The target is full, carries no claim, and its jobs are quiet. */
  predicate Idle(p: Pool, t: nat) {
    t < |p.targets| && !p.targets[t].refillPending && p.targets[t].refillRequestedAt.None? && Needed(p, t) == 0 && Quiet(p, t)
  }

  lemma QuietAlike(p: Pool, q: Pool, t: nat)
    requires Alike(p, q, t)
    ensures Needed(p, t) == Needed(q, t) && (Quiet(p, t) <==> Quiet(q, t))
  {
    SameUnfinished(p, q, p.targets[t].scope);
    UnfinishedInRange(p.jobs, p.targets[t].scope, |p.jobs|);
    hide UnfinishedJobs, Stock, StockLines, LinesFor, CountFor, ReservationTarget;
  }

  /** Fulfilling a quiet target changes nothing. */
  lemma QuietFulfil(env: Env, p: Pool, t: nat)
    requires Open(p, t) && Quiet(p, t)
    ensures Fulfill(env, p, t) == Done(p)
  {
    var scope := p.targets[t].scope;
    var js := UnfinishedJobs(p.jobs, scope, |p.jobs|);
    UnfinishedInRange(p.jobs, scope, |p.jobs|);
    UnfinishedComplete(p.jobs, scope, |p.jobs|);
    OpenStockOfTarget(p, t);
    hide UnfinishedJobs, Stock, CountFor, ReservationTarget, UniqueScopes;
    if js != [] {
      var h := js[0];
      assert AvailableIds(p.entries, t) == [];
      assert Reserve(env, p, h) == Some(p);
      assert p.jobs[h := p.jobs[h]] == p.jobs;
      assert Recount(p, h) == p;
      assert Serve(env, p, h) == Some(p);
    }
  }

  /** The job served first ends as it was served. */
  lemma FirstServed(env: Env, p: Pool, t: nat, js: seq<nat>)
    requires Open(p, t) && js != [] && (forall i, j :: 0 <= i < j < |js| ==> js[i] < js[j])
    requires forall i :: 0 <= i < |js| ==> js[i] < |p.jobs| && p.jobs[js[i]].scope == p.targets[t].scope
    ensures var o, h := ServeAll(env, p, t, js), js[0];
            var k := Min(Shortage(p, h), AvailableCount(p.entries, t));
            o.Done? ==>
              && |o.pool.jobs| == |p.jobs| && CountFor(o.pool.reservations, h) == CountFor(p.reservations, h) + k
              && o.pool.jobs[h].readyCount == CountFor(p.reservations, h) + k
              && o.pool.jobs[h].status == StatusOf(CountFor(p.reservations, h) + k, ReservationTarget(p.jobs[h]))
  {
    hide Serve, CountFor, Stock, ReservationTarget, LinesFor, Shortage;
    var h := js[0];
    ServeTakesOldest(env, p, t, h);
    var r := Serve(env, p, h);
    if r.Some? && AvailableCount(r.value.entries, t) != 0 {
      ServeAllLeaves(env, r.value, t, js[1..], h);
    }
  }

  /** A fulfilment that leaves its jobs as they were had nothing to do. */
  lemma IdleFulfilIsQuiet(env: Env, p: Pool, t: nat)
    requires Open(p, t) && Fulfill(env, p, t).Done? && SameJobs(p, Fulfill(env, p, t).pool, p.targets[t].scope)
    ensures Quiet(p, t)
  {
    var scope := p.targets[t].scope;
    var js := UnfinishedJobs(p.jobs, scope, |p.jobs|);
    UnfinishedInRange(p.jobs, scope, |p.jobs|);
    UnfinishedComplete(p.jobs, scope, |p.jobs|);
    hide UnfinishedJobs, Stock, CountFor, ServeAll, UniqueScopes, LinesFor, ReservationTarget;
    if js != [] {
      var h := js[0];
      FirstServed(env, p, t, js);
      assert Unfinished(p.jobs[h], scope);
      assert SameGiven(p.reservations, ServeAll(env, p, t, js).pool.reservations, h);
      assert Min(Shortage(p, h), AvailableCount(p.entries, t)) == 0;
    }
  }

  lemma FullIsTopped(env: Env, p: Pool, t: nat, supply: Supply)
    requires t < |p.targets| && Supplies(supply(t), Needed(p, t)) && Needed(p, t) == 0
    ensures Topped(env, p, t, supply) == p
  {
    assert p.entries + NewEntries(env, Mine(p, t, supply)) == p.entries;
  }

  lemma ClearedAlike(p: Pool, t: nat)
    requires t < |p.targets|
    ensures Alike(p, p.(targets := ClearClaim(p.targets, t)), t)
  {
  }

  /** A topped-up pool without served jobs has as much stock as before only when nothing lacked. */
  lemma NothingServed(env: Env, p: Pool, t: nat, supply: Supply)
    requires Refillable(env, p, t, supply) && Refill(env, p, t, supply(t)).Done? && Alike(p, Refill(env, p, t, supply(t)).pool, t)
    ensures Needed(p, t) == 0 && t < |p.targets| && Quiet(p, t)
  {
    RefillSplits(env, p, t, supply);
    OpenInRange(p, t);
    var x := Topped(env, p, t, supply);
    assert x.jobs == p.jobs && x.reservations == p.reservations && x.targets == p.targets;
    ToppedStock(env, p, t, supply);
    hide Refillable, Open, Topped, Refill, Fulfill, Stock, CountFor, LinesFor, StockLines;
    IdleFulfilIsQuiet(env, x, t);
    QuietFulfil(env, x, t);
    QuietBefore(p, x, t);
  }

  lemma QuietBefore(p: Pool, x: Pool, t: nat)
    requires t < |p.targets| && x.targets == p.targets && x.jobs == p.jobs && x.reservations == p.reservations
    requires Quiet(x, t) && AvailableCount(x.entries, t) == Max(AvailableCount(p.entries, t), p.targets[t].targetCount)
    requires AvailableCount(x.entries, t) == AvailableCount(p.entries, t)
    ensures Needed(p, t) == 0 && Quiet(p, t)
  {
    UnfinishedInRange(p.jobs, p.targets[t].scope, |p.jobs|);
    hide Stock, CountFor, UnfinishedJobs;
  }

  /** A refill that completes leaves its target alike exactly when the target was full and its
      jobs quiet. */
  lemma RefillQuietly(env: Env, p: Pool, t: nat, supply: Supply)
    requires Refillable(env, p, t, supply) && Refill(env, p, t, supply(t)).Done?
    ensures t < |p.targets|
    ensures Alike(p, Refill(env, p, t, supply(t)).pool, t) <==> Needed(p, t) == 0 && Quiet(p, t)
  {
    RefillSplits(env, p, t, supply);
    OpenInRange(p, t);
    hide Refillable, Topped, Refill, Fulfill, Alike, Quiet, Needed, Open;
    if Alike(p, Refill(env, p, t, supply(t)).pool, t) {
      NothingServed(env, p, t, supply);
    }
    if Needed(p, t) == 0 && Quiet(p, t) {
      FullIsTopped(env, p, t, supply);
      QuietFulfil(env, p, t);
      ClearedAlike(p, t);
    }
  }

  // ------------------------------------------------------------------ refills of some targets and of more

  lemma {:induction false} CountIsLength(rs: seq<Reservation>, job: nat)
    ensures |LinesFor(rs, job)| == CountFor(rs, job)
  {
    if rs != [] {
      CountIsLength(rs[..|rs| - 1], job);
    }
  }

  lemma SameOutcomeAlike(q: Pool, r: Pool, t: nat)
    requires SameOutcome(q, r) && t < |q.targets|
    ensures Alike(q, r, t)
  {
    forall j: nat ensures |LinesFor(q.reservations, j)| == CountFor(q.reservations, j) && |LinesFor(r.reservations, j)| == CountFor(r.reservations, j) {
      CountIsLength(q.reservations, j);
      CountIsLength(r.reservations, j);
    }
    assert |StockLines(q.entries, t)| == AvailableCount(q.entries, t) && |StockLines(r.entries, t)| == AvailableCount(r.entries, t);
    hide LinesFor, CountFor, StockLines, Stock;
  }

  /** A target refilled in `b` only ends alike exactly when it was full and its jobs quiet. */
  lemma ExtraTarget(env: Env, p: Pool, q: Pool, b: seq<nat>, supply: Supply, t: nat)
    requires Prepared(env, p, b, supply) && Generous(p, supply) && InTurn(env, p, b, supply).Some? && t in b && t < |p.targets|
    requires Alike(p, q, t)
    ensures Alike(q, InTurn(env, p, b, supply).value, t) <==> Needed(p, t) == 0 && Quiet(p, t)
  {
    var r := InTurn(env, p, b, supply).value;
    hide *;
    var m := OwnTurn(env, p, b, supply, t);
    RefillQuietly(env, m, t, supply);
    QuietAlike(p, m, t);
    var x := Refill(env, m, t, supply(t)).pool;
    if Alike(q, r, t) {
      AlikeSymmetric(p, m, t);
      AlikeTransitive(m, p, q, t);
      AlikeTransitive(m, q, r, t);
      AlikeSymmetric(x, r, t);
      AlikeTransitive(m, r, x, t);
    }
    if Alike(m, x, t) {
      AlikeSymmetric(p, q, t);
      AlikeTransitive(q, p, m, t);
      AlikeTransitive(q, m, x, t);
      AlikeTransitive(q, x, r, t);
    }
  }

  /** Claims cleared in `b` but not in `a`. */
  lemma SameClaims(targets: seq<Target>, a: seq<nat>, b: seq<nat>)
    requires forall x | x in a :: x in b
    ensures ClearAll(targets, a) == ClearAll(targets, b) <==>
              forall t: nat | t < |targets| && t in b && t !in a :: !targets[t].refillPending && targets[t].refillRequestedAt.None?
  {
    if ClearAll(targets, a) == ClearAll(targets, b) {
      forall t: nat | t < |targets| && t in b && t !in a ensures !targets[t].refillPending && targets[t].refillRequestedAt.None? {
        assert ClearAll(targets, a)[t] == ClearAll(targets, b)[t];
      }
    }
  }

  lemma JobsEndSame(env: Env, p: Pool, a: seq<nat>, b: seq<nat>, supply: Supply, j: nat)
    requires Prepared(env, p, a, supply) && Prepared(env, p, b, supply) && Generous(p, supply) && (forall x | x in a :: x in b)
    requires InTurn(env, p, a, supply).Some? && InTurn(env, p, b, supply).Some? && j < |p.jobs|
    requires forall t: nat | t < |p.targets| :: Alike(InTurn(env, p, a, supply).value, InTurn(env, p, b, supply).value, t)
    ensures var q, r := InTurn(env, p, a, supply).value, InTurn(env, p, b, supply).value;
            && |q.jobs| == |p.jobs| == |r.jobs| && r.jobs[j] == q.jobs[j] && LinesFor(r.reservations, j) == LinesFor(q.reservations, j)
  {
    var q, r, scope := InTurn(env, p, a, supply).value, InTurn(env, p, b, supply).value, p.jobs[j].scope;
    hide InTurn, Prepared, Generous, StockLines, Stock, LinesFor, CountFor;
    JobsKeepNumber(env, p, a, supply);
    JobsKeepNumber(env, p, b, supply);
    if i :| 0 <= i < |b| && b[i] < |p.targets| && p.targets[b[i]].scope == scope {
      assert Alike(q, r, b[i]);
      InTurnClears(env, p, a, supply);
      assert q.targets[b[i]].scope == scope && q.jobs[j].scope == scope;
    } else {
      forall i | 0 <= i < |a| ensures a[i] in b {}
      InTurnLeavesScope(env, p, a, supply, scope);
      InTurnLeavesScope(env, p, b, supply, scope);
    }
  }

  /** Refilling more targets ends the same exactly when the additional ones are idle. */
  lemma MoreRefillsAgree(env: Env, p: Pool, a: seq<nat>, b: seq<nat>, supply: Supply)
    requires Prepared(env, p, a, supply) && Prepared(env, p, b, supply) && Generous(p, supply) && (forall x | x in a :: x in b)
    requires InTurn(env, p, a, supply).Some? && InTurn(env, p, b, supply).Some?
    ensures SameOutcome(InTurn(env, p, a, supply).value, InTurn(env, p, b, supply).value) <==> forall t | t in b && t !in a :: Idle(p, t)
  {
    var q, r := InTurn(env, p, a, supply).value, InTurn(env, p, b, supply).value;
    forall t | t in b ensures t < |p.targets| {
      InTurnTargets(env, p, b, supply, t);
    }
    hide *;
    InTurnClears(env, p, a, supply);
    InTurnClears(env, p, b, supply);
    SameClaims(p.targets, a, b);
    ClearAllLength(p.targets, a);
    if SameOutcome(q, r) {
      forall t | t in b && t !in a ensures Idle(p, t) {
        SameOutcomeAlike(q, r, t);
        InTurnLeaves(env, p, a, supply, t);
        ExtraTarget(env, p, q, b, supply, t);
        SameOutcomeTargets(q, r);
        IsIdle(p, t);
      }
    }
    if forall t | t in b && t !in a :: Idle(p, t) {
      forall t | t in b && t !in a ensures Idle(p, t) && !p.targets[t].refillPending && p.targets[t].refillRequestedAt.None? {
        IsIdle(p, t);
      }
      forall t: nat | t < |p.targets| ensures Alike(q, r, t) {
        if t in b && t !in a {
          InTurnLeaves(env, p, a, supply, t);
          ExtraTarget(env, p, q, b, supply, t);
          IsIdle(p, t);
        } else {
          TargetEndsAlike(env, p, a, b, supply, t);
        }
      }
      AlikeEverywhere(env, p, a, b, supply);
    }
  }

  lemma ClearAllLength(targets: seq<Target>, a: seq<nat>)
    ensures |ClearAll(targets, a)| == |targets|
  {
  }

  lemma SameOutcomeTargets(q: Pool, r: Pool)
    requires SameOutcome(q, r)
    ensures q.targets == r.targets
  {
  }

  lemma IsIdle(p: Pool, t: nat)
    requires t < |p.targets|
    ensures Idle(p, t) <==> !p.targets[t].refillPending && p.targets[t].refillRequestedAt.None? && Needed(p, t) == 0 && Quiet(p, t)
  {
  }

  lemma AlikeEverywhere(env: Env, p: Pool, a: seq<nat>, b: seq<nat>, supply: Supply)
    requires Prepared(env, p, a, supply) && Prepared(env, p, b, supply) && Generous(p, supply) && (forall x | x in a :: x in b)
    requires InTurn(env, p, a, supply).Some? && InTurn(env, p, b, supply).Some?
    requires var q, r := InTurn(env, p, a, supply).value, InTurn(env, p, b, supply).value;
             q.targets == r.targets && |q.targets| == |p.targets| && forall t: nat | t < |p.targets| :: Alike(q, r, t)
    ensures SameOutcome(InTurn(env, p, a, supply).value, InTurn(env, p, b, supply).value)
  {
    var q, r := InTurn(env, p, a, supply).value, InTurn(env, p, b, supply).value;
    hide *;
    JobsKeepNumber(env, p, a, supply);
    JobsKeepNumber(env, p, b, supply);
    forall j: nat | j < |p.jobs| ensures r.jobs[j] == q.jobs[j] && LinesFor(r.reservations, j) == LinesFor(q.reservations, j) {
      JobsEndSame(env, p, a, b, supply, j);
    }
    SameWhenAlike(q, r);
  }

  lemma SameWhenAlike(q: Pool, r: Pool)
    requires q.targets == r.targets && |q.jobs| == |r.jobs| && (forall t: nat | t < |q.targets| :: Alike(q, r, t))
    requires forall j: nat | j < |q.jobs| :: r.jobs[j] == q.jobs[j] && LinesFor(r.reservations, j) == LinesFor(q.reservations, j)
    ensures SameOutcome(q, r)
  {
    hide StockLines, Stock, LinesFor, CountFor, SameJobs;
    forall t: nat | t < |q.targets| ensures StockLines(r.entries, t) == StockLines(q.entries, t) {
      assert Alike(q, r, t);
    }
  }

  // ------------------------------------------------------------------ two batch sizes

  /** The order in which a prefill refilled the targets it got to. */
  lemma StopOrder(env: Env, p: Pool, q: Pool, targets: seq<nat>, size: nat, supply: Supply, staleBefore: int, n: nat)
    requires size > 0 && Generous(p, supply) && Offered(env, p, targets, supply)
    requires StopsAfter(env, p, q, targets, size, supply, staleBefore, n)
    ensures n <= |targets|
    ensures Prepared(env, p, targets[..n], supply) && Reorders(targets[..n], ProcessingOrder(p.targets, targets[..n], size))
    ensures Prepared(env, p, ProcessingOrder(p.targets, targets[..n], size), supply)
  {
    UnfoldStops(env, p, q, targets, size, supply, staleBefore, n);
    hide StopsAfter, InTurn, ProcessingOrder, Generous, Blocked, Untouched;
    PreparedPrefix(env, p, targets, supply, staleBefore, n);
    PreparedIsActive(env, p, targets[..n], supply);
    hide Prepared, Reorders;
    BatchesReorder(p.targets, targets[..n], size);
    PreparedInAnyOrder(env, p, targets[..n], ProcessingOrder(p.targets, targets[..n], size), supply);
  }

  lemma PreparedIsActive(env: Env, p: Pool, ts: seq<nat>, supply: Supply)
    requires Prepared(env, p, ts, supply)
    ensures (forall a | 0 <= a < |ts| :: ts[a] < |p.targets| && p.targets[ts[a]].active) && forall a, b | 0 <= a < b < |ts| :: ts[a] != ts[b]
  {
    hide FreshSupply, Generous;
  }

  lemma PreparedPrefix(env: Env, p: Pool, targets: seq<nat>, supply: Supply, staleBefore: int, n: nat)
    requires Offered(env, p, targets, supply) && n <= |targets| && Unowned(p, targets[..n], staleBefore)
    ensures Prepared(env, p, targets[..n], supply)
  {
    var first, later := targets[..n], targets[n..];
    assert targets == first + later;
    hide Prepared, Unowned, Present, Once;
    UnownedIsPresent(p, first, staleBefore);
    PresentAppends(p, first, later);
    PreparedPart(env, p, first, Present(p, later), supply);
  }

  /** The targets one prefill got to and the other did not. */
  lemma Between(targets: seq<nat>, n: nat, k: nat, a: seq<nat>, b: seq<nat>)
    requires Once(targets) && n <= k <= |targets| && Reorders(targets[..n], a) && Reorders(targets[..k], b)
    ensures forall x | x in a :: x in b
    ensures forall x :: x in b && x !in a <==> exists i :: n <= i < k && targets[i] == x
  {
    forall x ensures x in a <==> exists i :: 0 <= i < n && targets[i] == x {
      assert x in a <==> x in targets[..n];
    }
    forall x ensures x in b <==> exists i :: 0 <= i < k && targets[i] == x {
      assert x in b <==> x in targets[..k];
    }
    forall x | x in a ensures x in b {
      var i :| 0 <= i < n && targets[i] == x;
    }
    hide Reorders;
  }

  lemma SameOutcomeSymmetric(q: Pool, r: Pool)
    ensures SameOutcome(q, r) <==> SameOutcome(r, q)
  {
    hide StockLines, LinesFor;
  }

  /** Two prefills of the same list that stop after `n` and after `k` targets. */
  lemma StopsAgree(env: Env, p: Pool, q: Pool, r: Pool, targets: seq<nat>, size: nat, other: nat, supply: Supply, staleBefore: int, n: nat, k: nat)
    requires size > 0 && other > 0 && Generous(p, supply) && Offered(env, p, targets, supply) && n <= k
    requires StopsAfter(env, p, q, targets, size, supply, staleBefore, n) && StopsAfter(env, p, r, targets, other, supply, staleBefore, k)
    ensures k <= |targets|
    ensures SameOutcome(q, r) <==> forall i | n <= i < k :: Idle(p, targets[i])
  {
    hide *;
    StopOrder(env, p, q, targets, size, supply, staleBefore, n);
    StopOrder(env, p, r, targets, other, supply, staleBefore, k);
    UnfoldStops(env, p, q, targets, size, supply, staleBefore, n);
    UnfoldStops(env, p, r, targets, other, supply, staleBefore, k);
    var a, b := ProcessingOrder(p.targets, targets[..n], size), ProcessingOrder(p.targets, targets[..k], other);
    OfferedOnce(env, p, targets, supply);
    IdleBetween(p, targets, n, k, a, b);
    MoreRefillsAgree(env, p, a, b, supply);
  }

  lemma OfferedOnce(env: Env, p: Pool, targets: seq<nat>, supply: Supply)
    requires Offered(env, p, targets, supply)
    ensures Once(targets)
  {
    hide Once, Prepared;
  }

  lemma IdleBetween(p: Pool, targets: seq<nat>, n: nat, k: nat, a: seq<nat>, b: seq<nat>)
    requires Once(targets) && n <= k <= |targets| && Reorders(targets[..n], a) && Reorders(targets[..k], b)
    ensures forall x | x in a :: x in b
    ensures (forall t | t in b && t !in a :: Idle(p, t)) <==> forall i | n <= i < k :: Idle(p, targets[i])
  {
    hide *;
    Between(targets, n, k, a, b);
    if forall t | t in b && t !in a :: Idle(p, t) {
      forall i | n <= i < k ensures Idle(p, targets[i]) {
        assert targets[i] in b && targets[i] !in a;
      }
    }
  }

  /** Whichever of two prefills got further. */
  lemma StopsAgreeBoth(env: Env, p: Pool, q: Pool, r: Pool, targets: seq<nat>, size: nat, other: nat, supply: Supply, staleBefore: int, n: nat, k: nat)
    requires size > 0 && other > 0 && Generous(p, supply) && Offered(env, p, targets, supply)
    requires StopsAfter(env, p, q, targets, size, supply, staleBefore, n) && StopsAfter(env, p, r, targets, other, supply, staleBefore, k)
    ensures n <= |targets| && k <= |targets|
    ensures SameOutcome(q, r) <==> forall i | Min(n, k) <= i < Max(n, k) :: Idle(p, targets[i])
  {
    hide *;
    UnfoldStops(env, p, q, targets, size, supply, staleBefore, n);
    UnfoldStops(env, p, r, targets, other, supply, staleBefore, k);
    MinMax(n, k);
    if n <= k {
      StopsAgree(env, p, q, r, targets, size, other, supply, staleBefore, n, k);
    } else {
      StopsAgree(env, p, r, q, targets, other, size, supply, staleBefore, k, n);
      SameOutcomeSymmetric(q, r);
    }
  }

  /** Two batch sizes leave the same targets, stock, jobs and proxies exactly when every target
      that only one of the two prefills got to was idle. */
  lemma BatchSizeIsIrrelevant(env: Env, p: Pool, targets: seq<nat>, size: nat, other: nat, supply: Supply, now: int, staleBefore: int)
      returns (n: nat, k: nat)
    requires size > 0 && other > 0 && Generous(p, supply) && Offered(env, p, targets, supply)
    ensures var (q, completed) := FillDirect(env, p, targets, size, supply, now, staleBefore);
            var (r, finished) := FillDirect(env, p, targets, other, supply, now, staleBefore);
            && StopsAfter(env, p, q, targets, size, supply, staleBefore, n) && (completed <==> n == |targets|)
            && StopsAfter(env, p, r, targets, other, supply, staleBefore, k) && (finished <==> k == |targets|)
            && n <= |targets| && k <= |targets|
            && (SameOutcome(q, r) <==> forall i | Min(n, k) <= i < Max(n, k) :: Idle(p, targets[i]))
  {
    hide *;
    n := PrefillStops(env, p, targets, size, supply, now, staleBefore);
    k := PrefillStops(env, p, targets, other, supply, now, staleBefore);
    var q, r := FillDirect(env, p, targets, size, supply, now, staleBefore).0, FillDirect(env, p, targets, other, supply, now, staleBefore).0;
    StopsAgreeBoth(env, p, q, r, targets, size, other, supply, staleBefore, n, k);
  }

  lemma MinMax(n: nat, k: nat)
    ensures if n <= k then Min(n, k) == n && Max(n, k) == k else Min(n, k) == k && Max(n, k) == n
  {
  }

  // ------------------------------------------------------------------ told from the tables before

  /** The target is there, active and unowned. */
  predicate MayTake(p: Pool, t: nat, staleBefore: int) {
    t < |p.targets| && p.targets[t].active && !Owned(p.targets[t], staleBefore)
  }

  ghost predicate Fillable(env: Env, p: Pool, t: nat, supply: Supply, staleBefore: int) {
    MayTake(p, t, staleBefore) && CanFill(env, p, t, supply)
  }

  /** The first target from `i` on that cannot be filled, or the length of the list. */
  ghost function UnfillableFrom(env: Env, p: Pool, targets: seq<nat>, supply: Supply, staleBefore: int, i: nat): (m: nat)
    requires i <= |targets|
    ensures i <= m <= |targets| && (m < |targets| ==> !Fillable(env, p, targets[m], supply, staleBefore))
    ensures forall j | i <= j < m :: Fillable(env, p, targets[j], supply, staleBefore)
    decreases |targets| - i
  {
    if i == |targets| || !Fillable(env, p, targets[i], supply, staleBefore) then i
    else UnfillableFrom(env, p, targets, supply, staleBefore, i + 1)
  }

  ghost function FirstUnfillable(env: Env, p: Pool, targets: seq<nat>, supply: Supply, staleBefore: int): (m: nat)
    ensures m <= |targets| && (m < |targets| ==> !Fillable(env, p, targets[m], supply, staleBefore))
    ensures forall j | 0 <= j < m :: Fillable(env, p, targets[j], supply, staleBefore)
  {
    UnfillableFrom(env, p, targets, supply, staleBefore, 0)
  }

  /** How far a prefill gets when the first target it cannot fill is at `m`. */
  function Reach(m: nat, length: nat, size: nat): nat
    requires size > 0
  {
    if m >= length then length else Whole(m, size)
  }

  lemma {:induction false} WholeBetween(n: nat, m: nat, size: nat)
    requires size > 0 && Whole(n, size) == n && n <= m < n + size
    ensures Whole(m, size) == n
  {
    if n >= size {
      WholeBetween(n - size, m - size, size);
    }
  }

  lemma UntangledOfSome(env: Env, p: Pool, a: seq<nat>, b: seq<nat>)
    requires Untangled(env, p, a) && forall x | x in b :: x in a
    ensures Untangled(env, p, b)
  {
    assert forall i: nat :: IsStock(p, b, i) ==> IsStock(p, a, i);
  }

  /** Refills in turn all complete exactly when every target can be filled. */
  lemma TurnsExactly(env: Env, p: Pool, ts: seq<nat>, supply: Supply)
    requires Prepared(env, p, ts, supply) && Generous(p, supply) && Untangled(env, p, ts) && Sound(env, p)
    ensures InTurn(env, p, ts, supply).Some? <==> forall t | t in ts :: CanFill(env, p, t, supply)
  {
    hide *;
    InTurnCompletes(env, p, ts, supply);
    forall t | t in ts ensures CompletesAlone(env, p, t, supply) <==> CanFill(env, p, t, supply) {
      MemberIsRefillable(env, p, ts, supply, t);
      CompletesExactly(env, p, t, supply);
    }
  }

  lemma UntangledPrefix(env: Env, p: Pool, targets: seq<nat>, ts: seq<nat>)
    requires Untangled(env, p, Present(p, targets)) && forall x | x in ts :: x in targets && IsPresent(p, x)
    ensures Untangled(env, p, ts)
  {
    PresentIn(p, targets);
    hide Untangled, Present, IsPresent;
    UntangledOfSome(env, p, Present(p, targets), ts);
  }

  /** The targets a prefill got to could all be filled. */
  lemma ReachedAreFillable(env: Env, p: Pool, q: Pool, targets: seq<nat>, size: nat, supply: Supply, staleBefore: int, n: nat)
    requires size > 0 && Generous(p, supply) && Offered(env, p, targets, supply) && Sound(env, p) && Untangled(env, p, Present(p, targets))
    requires StopsAfter(env, p, q, targets, size, supply, staleBefore, n)
    ensures n <= |targets| && forall i | 0 <= i < n :: Fillable(env, p, targets[i], supply, staleBefore)
  {
    var order := ProcessingOrder(p.targets, targets[..if n <= |targets| then n else 0], size);
    hide Sound, Offered, StopsAfter, InTurn, ProcessingOrder, Untangled, Generous, CanFill, Owned, Blocked, Untouched, Prepared, Present;
    UnfoldStops(env, p, q, targets, size, supply, staleBefore, n);
    StopOrder(env, p, q, targets, size, supply, staleBefore, n);
    forall x | x in order ensures x in targets && IsPresent(p, x) {
      assert x in targets[..n];
    }
    UntangledPrefix(env, p, targets, order);
    TurnsExactly(env, p, order, supply);
    forall i | 0 <= i < n ensures Fillable(env, p, targets[i], supply, staleBefore) {
      assert targets[..n][i] == targets[i] && targets[i] in targets[..n];
      assert targets[i] in order;
    }
  }

  /** Targets untouched so far are unowned now as they were before. */
  lemma NextWasUnowned(p: Pool, q: Pool, targets: seq<nat>, n: nat, next: seq<nat>, staleBefore: int)
    requires n + |next| <= |targets| && next == targets[n..n + |next|] && |q.targets| == |p.targets|
    requires Unowned(p, targets[..n], staleBefore) && forall i | n <= i < |targets| :: Untouched(p, q, targets[i])
    ensures Unowned(q, next, staleBefore) ==> Unowned(p, targets[..n + |next|], staleBefore)
    ensures !Unowned(q, next, staleBefore) ==>
              exists i :: n <= i < n + |next| && !MayTake(p, targets[i], staleBefore)
  {
    hide Owned, Alike;
    assert forall j | 0 <= j < |next| :: next[j] == targets[n + j] && Untouched(p, q, targets[n + j]);
    if Unowned(q, next, staleBefore) {
      forall i | 0 <= i < n + |next|
        ensures targets[i] < |p.targets| && p.targets[targets[i]].active && !Owned(p.targets[targets[i]], staleBefore)
      {
        if i < n {
          assert targets[..n][i] == targets[i];
        } else {
          assert next[i - n] == targets[i];
        }
      }
    } else {
      var j :| 0 <= j < |next| && !(next[j] < |q.targets| && q.targets[next[j]].active && !Owned(q.targets[next[j]], staleBefore));
      assert !MayTake(p, targets[n + j], staleBefore);
    }
  }

  /** A batch whose refills in turn raise has a target that cannot be filled. */
  lemma RaisingHasUnfillable(env: Env, p: Pool, q: Pool, targets: seq<nat>, n: nat, next: seq<nat>, order: seq<nat>, supply: Supply)
    requires Sound(env, p) && Generous(p, supply) && Generous(q, supply) && Untangled(env, p, Present(p, targets)) && Once(targets)
    requires n + |next| <= |targets| && next == targets[n..n + |next|]
    requires Prepared(env, p, targets[..n + |next|], supply) && Reorders(targets[..n], order) && InTurn(env, p, order, supply) == Some(q)
    requires forall i | 0 <= i < |next| :: next[i] < |q.targets| && q.targets[next[i]].active
    requires InTurn(env, q, LockedBatch(q.targets, set i | i in next, |q.targets|), supply).None?
    ensures exists i :: 0 <= i < |next| && !CanFill(env, p, next[i], supply)
  {
    var batch := LockedBatch(q.targets, set i | i in next, |q.targets|);
    var part := targets[..n + |next|];
    assert part == targets[..n] + next && part <= targets;
    hide *;
    LockedIsChunk(q.targets, next);
    PreparedIsActive(env, p, part, supply);
    ReordersJoin(targets[..n], next, order, batch);
    PreparedInAnyOrder(env, p, part, order + batch, supply);
    PartIsPresent(p, targets, part, order + batch);
    UntangledPrefix(env, p, targets, order + batch);
    var t := SomeCannot(env, p, q, order, batch, supply);
    NextHolds(next, batch, t);
    var i :| 0 <= i < |next| && next[i] == t;
  }

  /** When later refills raise after the earlier ones completed, one of theirs cannot be filled. */
  lemma SomeCannot(env: Env, p: Pool, q: Pool, order: seq<nat>, batch: seq<nat>, supply: Supply) returns (t: nat)
    requires Sound(env, p) && Generous(p, supply) && Generous(q, supply) && Prepared(env, p, order + batch, supply) && Untangled(env, p, order + batch)
    requires InTurn(env, p, order, supply) == Some(q) && InTurn(env, q, batch, supply).None?
    ensures t in batch && !CanFill(env, p, t, supply)
  {
    hide *;
    InTurnChunks(env, p, order, batch, supply);
    PartTurns(env, p, order, batch, supply);
    TurnsExactly(env, p, order + batch, supply);
    TurnsExactly(env, p, order, supply);
    t :| t in order + batch && !CanFill(env, p, t, supply);
  }

  lemma PartIsPresent(p: Pool, targets: seq<nat>, part: seq<nat>, order: seq<nat>)
    requires part <= targets && Reorders(part, order) && forall a | 0 <= a < |part| :: part[a] < |p.targets| && p.targets[part[a]].active
    ensures forall x | x in order :: x in targets && IsPresent(p, x)
  {
    forall x | x in order ensures x in targets && IsPresent(p, x) {
      assert x in part;
      var a :| 0 <= a < |part| && part[a] == x;
      assert targets[a] == x;
    }
  }

  lemma NextHolds(next: seq<nat>, batch: seq<nat>, t: nat)
    requires Reorders(next, batch) && t in batch
    ensures t in next
  {
  }

  lemma PartTurns(env: Env, p: Pool, a: seq<nat>, b: seq<nat>, supply: Supply)
    requires Prepared(env, p, a + b, supply) && Untangled(env, p, a + b)
    ensures Prepared(env, p, a, supply) && Untangled(env, p, a)
  {
    hide *;
    PreparedPart(env, p, a, b, supply);
    forall x | x in a ensures x in a + b {}
    UntangledOfSome(env, p, a + b, a);
  }

  lemma NextBatch(targets: seq<nat>, n: nat, size: nat) returns (next: seq<nat>)
    requires n <= |targets|
    ensures next == Take(targets[n..], size) && n + |next| <= |targets| && next == targets[n..n + |next|] && |next| <= size
  {
    next := Take(targets[n..], size);
  }

  lemma IsUnfillable(env: Env, p: Pool, t: nat, supply: Supply, staleBefore: int)
    requires !MayTake(p, t, staleBefore) || !CanFill(env, p, t, supply)
    ensures !Fillable(env, p, t, supply, staleBefore)
  {
    hide Owned, CanFill;
  }

  lemma UnownedAreActive(q: Pool, next: seq<nat>, staleBefore: int)
    requires Unowned(q, next, staleBefore)
    ensures forall i | 0 <= i < |next| :: next[i] < |q.targets| && q.targets[next[i]].active
  {
    hide Owned;
  }

  lemma BlockedUnowned(env: Env, q: Pool, next: seq<nat>, supply: Supply, staleBefore: int)
    requires Blocked(env, q, next, supply, staleBefore) && Unowned(q, next, staleBefore)
    ensures Generous(q, supply) && InTurn(env, q, LockedBatch(q.targets, set i | i in next, |q.targets|), supply).None?
  {
    hide Unowned, Generous, InTurn, LockedBatch;
  }

  /** The next batch is unowned: one of its refills in turn raises. */
  lemma RaisingNext(env: Env, p: Pool, q: Pool, targets: seq<nat>, n: nat, next: seq<nat>, order: seq<nat>, supply: Supply, staleBefore: int)
      returns (j: nat)
    requires Sound(env, p) && Generous(p, supply) && Untangled(env, p, Present(p, targets)) && Once(targets)
    requires n + |next| <= |targets| && next == targets[n..n + |next|]
    requires Prepared(env, p, targets[..n + |next|], supply) && Reorders(targets[..n], order) && InTurn(env, p, order, supply) == Some(q)
    requires Unowned(q, next, staleBefore) && Blocked(env, q, next, supply, staleBefore)
    ensures j < |next| && !CanFill(env, p, next[j], supply)
  {
    hide *;
    UnownedAreActive(q, next, staleBefore);
    BlockedUnowned(env, q, next, supply, staleBefore);
    RaisingHasUnfillable(env, p, q, targets, n, next, order, supply);
    j :| 0 <= j < |next| && !CanFill(env, p, next[j], supply);
  }

  /** The batch at which a prefill stops has a target that could not be filled. */
  lemma BlockedHasUnfillable(env: Env, p: Pool, q: Pool, targets: seq<nat>, size: nat, supply: Supply, staleBefore: int, n: nat)
      returns (i: nat)
    requires size > 0 && Generous(p, supply) && Offered(env, p, targets, supply) && Sound(env, p) && Untangled(env, p, Present(p, targets))
    requires StopsAfter(env, p, q, targets, size, supply, staleBefore, n) && n < |targets|
    ensures n <= i < |targets| && i < n + size && !Fillable(env, p, targets[i], supply, staleBefore)
  {
    hide *;
    OfferedOnce(env, p, targets, supply);
    var next := NextBatch(targets, n, size);
    var order := ProcessingOrder(p.targets, targets[..n], size);
    UnfoldStops(env, p, q, targets, size, supply, staleBefore, n);
    NextWasUnowned(p, q, targets, n, next, staleBefore);
    if Unowned(q, next, staleBefore) {
      StopOrder(env, p, q, targets, size, supply, staleBefore, n);
      PreparedPrefix(env, p, targets, supply, staleBefore, n + |next|);
      var j := RaisingNext(env, p, q, targets, n, next, order, supply, staleBefore);
      i := n + j;
      assert next[j] == targets[i];
    } else {
      i :| n <= i < n + |next| && !MayTake(p, targets[i], staleBefore);
    }
    IsUnfillable(env, p, targets[i], supply, staleBefore);
  }

  /** With repairs that stay apart, a prefill refills exactly the whole batches before the first
      target that is missing, switched off, owned or cannot be filled. */
  lemma PrefillReaches(env: Env, p: Pool, targets: seq<nat>, size: nat, supply: Supply, now: int, staleBefore: int)
    requires size > 0 && Generous(p, supply) && Offered(env, p, targets, supply) && Sound(env, p) && Untangled(env, p, Present(p, targets))
    ensures var (q, completed) := FillDirect(env, p, targets, size, supply, now, staleBefore);
            var m := FirstUnfillable(env, p, targets, supply, staleBefore);
            (completed <==> m == |targets|) && StopsAfter(env, p, q, targets, size, supply, staleBefore, Reach(m, |targets|, size))
  {
    var (q, completed) := FillDirect(env, p, targets, size, supply, now, staleBefore);
    var m := FirstUnfillable(env, p, targets, supply, staleBefore);
    hide FillDirect, Offered, Sound, Untangled, Generous, StopsAfter, Fillable, Present, Whole;
    var n := PrefillStops(env, p, targets, size, supply, now, staleBefore);
    UnfoldStops(env, p, q, targets, size, supply, staleBefore, n);
    ReachedAreFillable(env, p, q, targets, size, supply, staleBefore, n);
    if n < |targets| {
      var i := BlockedHasUnfillable(env, p, q, targets, size, supply, staleBefore, n);
      WholeBetween(n, m, size);
    }
  }

  /** So, told from the tables before the call, two batch sizes leave the same exactly when every
      target between the ends of their whole batches is idle. */
  lemma SizesAgreeExactly(env: Env, p: Pool, targets: seq<nat>, size: nat, other: nat, supply: Supply, now: int, staleBefore: int)
    requires size > 0 && other > 0 && Generous(p, supply) && Offered(env, p, targets, supply) && Sound(env, p)
    requires Untangled(env, p, Present(p, targets))
    ensures var m := FirstUnfillable(env, p, targets, supply, staleBefore);
            var n, k := Reach(m, |targets|, size), Reach(m, |targets|, other);
            && n <= |targets| && k <= |targets|
            && (SameOutcome(FillDirect(env, p, targets, size, supply, now, staleBefore).0,
                            FillDirect(env, p, targets, other, supply, now, staleBefore).0) <==>
                  forall i | Min(n, k) <= i < Max(n, k) :: Idle(p, targets[i]))
  {
    var m := FirstUnfillable(env, p, targets, supply, staleBefore);
    var n, k := Reach(m, |targets|, size), Reach(m, |targets|, other);
    var q, r := FillDirect(env, p, targets, size, supply, now, staleBefore).0, FillDirect(env, p, targets, other, supply, now, staleBefore).0;
    hide *;
    PrefillReaches(env, p, targets, size, supply, now, staleBefore);
    PrefillReaches(env, p, targets, other, supply, now, staleBefore);
    StopsAgreeBoth(env, p, q, r, targets, size, other, supply, staleBefore, n, k);
  }
}
