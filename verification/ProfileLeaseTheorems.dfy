/** What the lease and its queue promise in every reachable state. */
module ProfileLeaseTheorems {
  import opened Wrappers
  import opened ProfileLease
  import opened ProfileLeaseRuns

  predicate LiveAt(x: Tenure, at: int) {
    x.at <= at < x.end
  }

  predicate LiveLease(t: Tables, key: string, now: int) {
    key in t.leases && now < t.leases[key].expiresAt
  }

  /** No two leases of a key are ever live together, and none lives longer than its term. */
  lemma MutualExclusion(w: World)
    requires Reachable(w)
    ensures && (forall g :: 0 <= g < |w.tenures| ==> 0 <= w.tenures[g].end - w.tenures[g].at <= LEASE_SECONDS)
            && (forall g, h, at | 0 <= g < h < |w.tenures| && w.tenures[g].key == w.tenures[h].key ::
                  !(LiveAt(w.tenures[g], at) && LiveAt(w.tenures[h], at)))
  {
    ReachableSound(w);
  }

  /** Every lease is backed by exactly one active row, that of its owner; and once no release
      is between its statements, every active row backs a lease. */
  lemma LeasesMatchActiveRows(w: World)
    requires Reachable(w)
    ensures && (forall key :: key in w.tables.leases ==> exists pk: nat :: Backs(w.tables, key, pk))
            && (forall key, pk: nat, i: nat | key in w.tables.leases && Backs(w.tables, key, pk) && i < |w.tables.queue| ::
                  w.tables.queue[i].leaseToken == w.tables.leases[key].ownerToken ==> i == pk)
            && (w.releasing == multiset{} ==>
                  forall i: nat :: i < |w.tables.queue| && w.tables.queue[i].status == Active ==>
                    w.tables.queue[i].scopeKey in w.tables.leases && Backs(w.tables, w.tables.queue[i].scopeKey, i))
  {
    ReachableSound(w);
    forall key, pk: nat, i: nat | key in w.tables.leases && Backs(w.tables, key, pk) && i < |w.tables.queue| &&
                                  w.tables.queue[i].leaseToken == w.tables.leases[key].ownerToken
      ensures i == pk
    {
      assert RowsSound(w) && DistinctTokens(w);
      assert w.tables.queue[pk].leaseToken == w.tables.queue[i].leaseToken != "";
    }
    if w.releasing == multiset{} {
      forall i: nat | i < |w.tables.queue| && w.tables.queue[i].status == Active
        ensures w.tables.queue[i].scopeKey in w.tables.leases && Backs(w.tables, w.tables.queue[i].scopeKey, i)
      {
        assert Accounted(w, w.tables.queue[i]);
        var pk: nat :| Backs(w.tables, w.tables.queue[i].scopeKey, pk);
        assert pk == i;
      }
    }
  }

  /** Grants of a key follow the queue order, and a client waits at most once per key. */
  lemma FirstInFirstOut(w: World)
    requires Reachable(w)
    ensures && (forall g, h :: 0 <= g < h < |w.tenures| && w.tenures[g].key == w.tenures[h].key ==>
                  && w.tenures[g].pk < |w.tables.queue| && w.tenures[h].pk < |w.tables.queue|
                  && Before(w.tables.queue, w.tenures[g].pk, w.tenures[h].pk))
            && OneRequestPerClient(w)
  {
    ReachableSound(w);
  }

  /** A request that carries a row's token, key and client speaks for that row. */
  lemma FindsOwnRow(w: World, r: Request, now: int, pk: nat)
    requires Inv(w) && pk < |w.tables.queue| && Carries(w.tables.queue[pk], r.key, r.client, r.requestToken)
    ensures FindRequest(ExpireStale(w.tables.queue, r.key, now), r.key, r.client, r.requestToken, |w.tables.queue|) == Some(pk)
    ensures w.tables.queue[pk].status == Active <==> w.tables.queue[pk].leaseToken != ""
  {
    assert DistinctTokens(w) && RowsSound(w);
    hide Inv;
    SameRequestFound(w.tables.queue, r.key, now, r.client, r.requestToken, |w.tables.queue|);
  }

  /** `pk` stands in the queue of `r.key` at `now` and no other row there is before it. */
  ghost predicate FirstInLine(t: Tables, key: string, pk: nat, now: int)
    requires pk < |t.queue|
  {
    IsWaiting(t.queue[pk], key, now) &&
    forall i: nat | i < |t.queue| && i != pk :: IsWaiting(t.queue[i], key, now) ==> Before(t.queue, pk, i)
  }

  lemma SweptRowsStay(t: Tables, key: string, now: int, pk: nat)
    requires pk < |t.queue|
    ensures var q := Reap(t.(queue := ExpireStale(t.queue, key, now)), key, now).queue;
            && |q| == |t.queue|
            && (forall i :: 0 <= i < |q| ==> q[i].createdAt == t.queue[i].createdAt &&
                                             IsWaiting(q[i], key, now) == IsWaiting(t.queue[i], key, now))
  {
  }

  /** A poll by a waiting request contends for the lease. */
  lemma WaitingContends(w: World, r: Request, now: int, pk: nat)
    requires Inv(w) && r.requestToken != ""
    requires pk < |w.tables.queue| && Carries(w.tables.queue[pk], r.key, r.client, r.requestToken) &&
             IsWaiting(w.tables.queue[pk], r.key, now)
    ensures Acquire(w.tables, r, now) == Contend(w.tables.(queue := ExpireStale(w.tables.queue, r.key, now)), r, pk, now)
  {
    hide Inv, Contend, Head;
    FindsOwnRow(w, r, now, pk);
  }

  /** A poll of a waiting request is answered with the lease exactly when the request is
      first in line and no lease of the key is live; otherwise the request keeps waiting. */
  lemma PollGrantsFirstInLine(w: World, r: Request, now: int, pk: nat)
    requires Reachable(w) && Enabled(w, AcquireOp(now, r))
    requires r.requestToken != ""
    requires pk < |w.tables.queue| && Carries(w.tables.queue[pk], r.key, r.client, r.requestToken) &&
             IsWaiting(w.tables.queue[pk], r.key, now)
    ensures var (t, response) := Acquire(w.tables, r, now);
            if FirstInLine(w.tables, r.key, pk, now) && !LiveLease(w.tables, r.key, now)
            then response == Granted(r.newOwnerToken) && OwnsLease(t, r.key, r.newOwnerToken)
            else response.Waiting? && response.requestToken == r.requestToken
  {
    ReachableSound(w);
    hide Inv, Acquire, Head, FirstInLine, Reachable, Enabled;
    WaitingContends(w, r, now, pk);
    SweptRowsStay(w.tables, r.key, now, pk);
    var t := Reap(w.tables.(queue := ExpireStale(w.tables.queue, r.key, now)), r.key, now);
    HeadIsFirst(w.tables, t, r.key, now, pk);
  }

  lemma HeadIsFirst(t: Tables, u: Tables, key: string, now: int, pk: nat)
    requires pk < |t.queue| == |u.queue|
    requires forall i :: 0 <= i < |t.queue| ==>
               u.queue[i].createdAt == t.queue[i].createdAt && IsWaiting(u.queue[i], key, now) == IsWaiting(t.queue[i], key, now)
    ensures Head(u.queue, key, now, |u.queue|) == Some(pk) <==> FirstInLine(t, key, pk, now)
  {}

  /** The tables once a new request has joined the queue. */
  function JoinedTables(t: Tables, r: Request, now: int): Tables {
    t.(queue := Supersede(ExpireStale(t.queue, r.key, now), r.key, r.client, now) + [NewRow(r, now)])
  }

  lemma JoinContends(t: Tables, r: Request, now: int)
    requires r.requestToken == ""
    ensures Acquire(t, r, now) == Contend(JoinedTables(t, r, now), r, |t.queue|, now)
  {
    hide Contend;
  }

  /** After the join and the reaping: the new row is last and waits, the client's own requests
      are gone, and the others stay. */
  lemma JoinedRows(t: Tables, r: Request, now: int)
    ensures var u := Reap(JoinedTables(t, r, now), r.key, now);
            && |u.queue| == |t.queue| + 1 && IsWaiting(u.queue[|t.queue|], r.key, now)
            && u.queue[|t.queue|].createdAt == now && u.queue[|t.queue|].requestToken == r.newRequestToken
            && (forall i | 0 <= i < |t.queue| ::
                  && (IsWaiting(u.queue[i], r.key, now) <==> IsWaiting(t.queue[i], r.key, now) && t.queue[i].client != r.client)
                  && u.queue[i].createdAt == t.queue[i].createdAt)
            && (r.key in u.leases <==> LiveLease(t, r.key, now))
  {
  }

  lemma ContendAnswers(t0: Tables, r: Request, pk: nat, now: int)
    requires pk < |t0.queue|
    ensures var u := Reap(t0, r.key, now);
            var (t, response) := Contend(t0, r, pk, now);
            pk < |u.queue| &&
            if r.key !in u.leases && Head(u.queue, r.key, now, |u.queue|) == Some(pk)
            then response == Granted(r.newOwnerToken) && OwnsLease(t, r.key, r.newOwnerToken)
            else response.Waiting? && response.requestToken == u.queue[pk].requestToken
  {
    hide Head, Position;
  }

  /** A new request is granted at once exactly when no lease of the key is live and nobody
      else waits for it. */
  lemma JoinGrantsWhenAlone(w: World, r: Request, now: int)
    requires Reachable(w) && Enabled(w, AcquireOp(now, r))
    requires r.requestToken == ""
    ensures var (t, response) := Acquire(w.tables, r, now);
            if LiveLease(w.tables, r.key, now) ||
               (exists i :: 0 <= i < |w.tables.queue| && IsWaiting(w.tables.queue[i], r.key, now) && w.tables.queue[i].client != r.client)
            then response.Waiting? && response.requestToken == r.newRequestToken
            else response == Granted(r.newOwnerToken) && OwnsLease(t, r.key, r.newOwnerToken)
  {
    ReachableSound(w);
    assert RowsSound(w) && w.clock <= now;
    var p, n := w.tables.queue, |w.tables.queue|;
    assert forall i | 0 <= i < n :: p[i].createdAt <= now;
    hide Inv, Acquire, Contend, Reap, JoinedTables, Head, IsWaiting, LiveLease, Reachable, Enabled, RowsSound, OwnsLease;
    var u := Reap(JoinedTables(w.tables, r, now), r.key, now);
    JoinContends(w.tables, r, now);
    JoinedRows(w.tables, r, now);
    assert n < |JoinedTables(w.tables, r, now).queue| by {
      JoinedLength(w.tables, r, now);
    }
    ContendAnswers(JoinedTables(w.tables, r, now), r, n, now);
    LastIsHeadWhenAlone(u.queue, r.key, now, n);
  }

  lemma JoinedLength(t: Tables, r: Request, now: int)
    ensures |JoinedTables(t, r, now).queue| == |t.queue| + 1
  {
  }

  lemma LastIsHeadWhenAlone(q: seq<QueueRow>, key: string, now: int, n: nat)
    requires n + 1 == |q| && IsWaiting(q[n], key, now)
    requires forall i :: 0 <= i < n ==> q[i].createdAt <= q[n].createdAt
    ensures Head(q, key, now, |q|) == Some(n) <==> forall i :: 0 <= i < n ==> !IsWaiting(q[i], key, now)
  {}

  // ------------------------------------------------------------------ positions never grow

  /** Later, rows keep their place, none comes back to the queue, and new ones are newer. */
  ghost predicate Ages(w: World, v: World) {
    && w.clock <= v.clock
    && |w.tables.queue| <= |v.tables.queue|
    && (forall i | 0 <= i < |w.tables.queue| ::
          var a, b := w.tables.queue[i], v.tables.queue[i];
          && b.scopeKey == a.scopeKey && b.client == a.client && b.requestToken == a.requestToken && b.createdAt == a.createdAt
          && (b.status == Queued ==> b == a))
    && (forall i | |w.tables.queue| <= i < |v.tables.queue| :: w.clock <= v.tables.queue[i].createdAt)
  }

  lemma AgesTransitive(u: World, v: World, w: World)
    requires Ages(u, v) && Ages(v, w)
    ensures Ages(u, w)
  {
    forall i | |u.tables.queue| <= i < |w.tables.queue| ensures u.clock <= w.tables.queue[i].createdAt {
      if i < |v.tables.queue| {
        assert w.tables.queue[i].createdAt == v.tables.queue[i].createdAt;
      }
    }
  }

  lemma StepAges(w: World, op: Op)
    requires w.clock <= op.now
    ensures Ages(w, Step(w, op))
  {
    if op.AcquireOp? {
      var r := op.request;
      var a := w.(tables := w.tables.(queue := ExpireStale(w.tables.queue, r.key, op.now)), clock := op.now);
      assert Ages(w, a);
      var b := a.(tables := a.tables.(queue := Supersede(a.tables.queue, r.key, r.client, op.now) + [NewRow(r, op.now)]));
      assert Ages(a, b);
      AgesTransitive(w, a, b);
      if r.requestToken == "" {
        ContendAges(b, r, |w.tables.queue|);
        AgesTransitive(w, b, b.(tables := Contend(b.tables, r, |w.tables.queue|, op.now).0));
      } else {
        var found := FindRequest(a.tables.queue, r.key, r.client, r.requestToken, |a.tables.queue|);
        if found.Some? {
          ContendAges(a, r, found.value);
          AgesTransitive(w, a, a.(tables := Poll(a.tables, r, found.value, op.now).0));
        }
      }
    }
  }

  lemma ContendAges(w: World, r: Request, pk: nat)
    requires pk < |w.tables.queue|
    ensures Ages(w, w.(tables := Contend(w.tables, r, pk, w.clock).0))
    ensures Ages(w, w.(tables := Poll(w.tables, r, pk, w.clock).0))
  {
    var t := Reap(w.tables, r.key, w.clock);
    assert Ages(w, w.(tables := t));
    if MayEnter(t, r.key, pk, w.clock) {
      assert Ages(w.(tables := t), w.(tables := Grant(t, r, pk, w.clock)));
    }
    assert Ages(w, w.(tables := Contend(w.tables, r, pk, w.clock).0));
  }

  lemma {:induction false} RunAges(w: World, ops: seq<Op>)
    requires Legal(w, ops)
    ensures Ages(w, Run(w, ops))
    decreases |ops|
  {
    if ops != [] {
      StepAges(w, ops[0]);
      RunAges(Step(w, ops[0]), ops[1..]);
      AgesTransitive(w, Step(w, ops[0]), Run(w, ops));
    }
  }

  /** What a poll of row `pk` that keeps waiting reports is read off the tables it leaves. */
  lemma WaitingReport(w: World, r: Request, now: int, pk: nat)
    requires Inv(w) && r.requestToken != ""
    requires pk < |w.tables.queue| && Carries(w.tables.queue[pk], r.key, r.client, r.requestToken)
    requires Acquire(w.tables, r, now).1.Waiting?
    ensures var (t, response) := Acquire(w.tables, r, now);
            && |t.queue| == |w.tables.queue|
            && response.position == Position(t.queue, r.key, now, pk)
            && IsWaiting(t.queue[pk], r.key, now)
  {
    FindsOwnRow(w, r, now, pk);
    hide Inv;
    SweptRowsStay(w.tables, r.key, now, pk);
  }

  lemma PositionShrinks(q: seq<QueueRow>, now: int, p: seq<QueueRow>, later: int, key: string, pk: nat, clock: int)
    requires pk < |q| <= |p| && IsWaiting(q[pk], key, now) && IsWaiting(p[pk], key, later)
    requires q[pk].createdAt <= clock && now <= later
    requires forall i | 0 <= i < |q| :: p[i].createdAt == q[i].createdAt && (p[i].status == Queued ==> p[i] == q[i])
    requires forall i | |q| <= i < |p| :: clock <= p[i].createdAt
    ensures Position(p, key, later, pk) <= Position(q, key, now, pk)
  {
    var head := Head(q, key, now, |q|);
    var earlier, still := Earlier(q, key, now, q[pk].createdAt), Earlier(p, key, later, p[pk].createdAt);
    forall i | i in still ensures i in earlier {}
    SubsetSize(still, earlier);
    if head == Some(pk) {
      forall i: nat | i < |p| && i != pk && IsWaiting(p[i], key, later) ensures Before(p, pk, i) {
        if i < |q| {
          assert Before(q, pk, i);
        }
      }
      assert Head(p, key, later, |p|) == Some(pk) by {
        HeadIsFirst(Tables(map[], p), Tables(map[], p), key, later, pk);
      }
    }
  }

  lemma {:induction false} SubsetSize(a: set<nat>, b: set<nat>)
    requires a <= b
    ensures |a| <= |b|
  {
    if x :| x in a {
      SubsetSize(a - {x}, b - {x});
    }
  }

  /** One aging step from the tables of the first poll to those of the second. */
  lemma PositionAges(w1: World, v1: World, key: string, now1: int, now2: int, pk: nat)
    requires Ages(w1, v1) && w1.clock == now1 <= now2
    requires pk < |w1.tables.queue| && w1.tables.queue[pk].createdAt <= now1
    requires pk < |v1.tables.queue| && IsWaiting(w1.tables.queue[pk], key, now1) && IsWaiting(v1.tables.queue[pk], key, now2)
    ensures 1 <= Position(v1.tables.queue, key, now2, pk) <= Position(w1.tables.queue, key, now1, pk)
  {
    PositionShrinks(w1.tables.queue, now1, v1.tables.queue, now2, key, pk, now1);
  }

  /** Two polls of row `pk` that both keep waiting, with any legal run in between. */
  ghost predicate PolledTwice(w: World, r1: Request, now1: int, between: seq<Op>, r2: Request, now2: int, pk: nat) {
    && Enabled(w, AcquireOp(now1, r1))
    && r1.requestToken != "" && pk < |w.tables.queue|
    && Carries(w.tables.queue[pk], r1.key, r1.client, r1.requestToken)
    && r2.key == r1.key && r2.client == r1.client && r2.requestToken == r1.requestToken
    && Acquire(w.tables, r1, now1).1.Waiting?
    && Legal(Step(w, AcquireOp(now1, r1)), between)
    && Enabled(Run(Step(w, AcquireOp(now1, r1)), between), AcquireOp(now2, r2))
    && Acquire(Run(Step(w, AcquireOp(now1, r1)), between).tables, r2, now2).1.Waiting?
  }

  lemma PositionFromTables(w: World, r1: Request, now1: int, between: seq<Op>, r2: Request, now2: int, pk: nat)
    requires Inv(w) && Inv(Step(w, AcquireOp(now1, r1))) && Inv(Run(Step(w, AcquireOp(now1, r1)), between))
    ensures PolledTwice(w, r1, now1, between, r2, now2, pk) ==>
              var v := Run(Step(w, AcquireOp(now1, r1)), between);
              1 <= Acquire(v.tables, r2, now2).1.position <= Acquire(w.tables, r1, now1).1.position
  {
    if PolledTwice(w, r1, now1, between, r2, now2, pk) {
      var w1 := Step(w, AcquireOp(now1, r1));
      var v := Run(w1, between);
      assert pk < |w1.tables.queue| ==> w1.tables.queue[pk].createdAt <= w1.clock by {
        assert RowsSound(w1);
      }
      WaitingReport(w, r1, now1, pk);
      hide Inv, Acquire, Run, Legal, Position, Head, Earlier;
      StepAges(w, AcquireOp(now1, r1));
      RunAges(w1, between);
      var v1 := Step(v, AcquireOp(now2, r2));
      StepAges(v, AcquireOp(now2, r2));
      AgesTransitive(w1, v, v1);
      WaitingReport(v, r2, now2, pk);
      PositionAges(w1, v1, r1.key, now1, now2, pk);
    }
  }

  /** Whatever happens between two polls of a request that keeps waiting, the second never
      reports a larger position than the first. */
  lemma PositionNeverGrows(w: World, r1: Request, now1: int, between: seq<Op>, r2: Request, now2: int, pk: nat)
    requires Reachable(w)
    ensures PolledTwice(w, r1, now1, between, r2, now2, pk) ==>
              var v := Run(Step(w, AcquireOp(now1, r1)), between);
              1 <= Acquire(v.tables, r2, now2).1.position <= Acquire(w.tables, r1, now1).1.position
  {
    if PolledTwice(w, r1, now1, between, r2, now2, pk) {
      hide Inv, Acquire, Run, Legal, Step;
      ReachableSound(w);
      var w1 := Step(w, AcquireOp(now1, r1));
      StepKeeps(w, AcquireOp(now1, r1));
      RunKeeps(w1, between);
      PositionFromTables(w, r1, now1, between, r2, now2, pk);
    }
  }

  /** What contends for the lease: its own row, waiting. */
  lemma ContenderWaits(w: World, r: Request, now: int) returns (t0: Tables)
    requires Inv(w) && Enabled(w, AcquireOp(now, r)) && Acquire(w.tables, r, now).1.Waiting?
    ensures var pk := Entrant(w.tables, r);
            pk < |t0.queue| && IsWaiting(t0.queue[pk], r.key, now) && Acquire(w.tables, r, now) == Contend(t0, r, pk, now)
  {
    assert RowsSound(w);
    hide Inv, Contend;
    var pk := Entrant(w.tables, r);
    var swept := w.tables.(queue := ExpireStale(w.tables.queue, r.key, now));
    if r.requestToken != "" {
      SameRequestFound(w.tables.queue, r.key, now, r.client, r.requestToken, |w.tables.queue|);
      t0 := swept;
    } else {
      t0 := swept.(queue := Supersede(swept.queue, r.key, r.client, now) + [NewRow(r, now)]);
    }
  }

  /** Contending without a grant leaves the caller's row in the queue. */
  lemma ContendingWaits(t0: Tables, r: Request, pk: nat, now: int)
    requires pk < |t0.queue| && IsWaiting(t0.queue[pk], r.key, now)
    ensures var (t, response) := Contend(t0, r, pk, now);
            response.Waiting? ==> pk < |t.queue| && IsWaiting(t.queue[pk], r.key, now)
  {
    hide Head;
  }

  /** A request that is told to wait always finds somebody at the head of the queue: itself, or
      one before it.  The branch for an empty queue is never taken. */
  lemma WaitersHaveHead(w: World, r: Request, now: int)
    requires Reachable(w) && Enabled(w, AcquireOp(now, r))
    ensures var (t, response) := Acquire(w.tables, r, now);
            response.Waiting? ==> Head(t.queue, r.key, now, |t.queue|).Some?
  {
    ReachableSound(w);
    hide Inv, Acquire, Contend, Enabled, Reachable, IsWaiting;
    var (t, response) := Acquire(w.tables, r, now);
    if response.Waiting? {
      var pk := Entrant(w.tables, r);
      var t0 := ContenderWaits(w, r, now);
      ContendingWaits(t0, r, pk, now);
    }
  }

  /** A cancellation ends at most one request, a queued one that carries its token, and a close
      at most the row of one lease. */
  lemma UpdatesEndOneRow(w: World, key: string, client: nat, token: string, now: int, i: nat, j: nat)
    requires Reachable(w) && token != ""
    ensures var q, c, d := w.tables.queue, Cancel(w.tables.queue, key, client, token, now), CloseReleased(w.tables.queue, key, client, token);
            i < |q| && j < |q| ==>
              && |c| == |q| == |d|
              && (c[i] != q[i] ==> q[i].status == Queued && c[i].status == Expired && (c[j] != q[j] ==> i == j))
              && (d[i] != q[i] ==> q[i].status == Active && d[i].status == Completed && (d[j] != q[j] ==> i == j))
  {
    ReachableSound(w);
    assert RowsSound(w) && DistinctTokens(w);
  }

  /** Polling while one's lease is live returns that lease and extends nothing. */
  lemma PollKeepsLiveLease(w: World, r: Request, now: int, pk: nat)
    requires Reachable(w) && w.clock <= now && r.requestToken != ""
    requires LiveLease(w.tables, r.key, now) && Backs(w.tables, r.key, pk)
    requires Carries(w.tables.queue[pk], r.key, r.client, r.requestToken)
    ensures var (t, response) := Acquire(w.tables, r, now);
            response == Granted(w.tables.leases[r.key].ownerToken) && t.leases == w.tables.leases
  {
    ReachableSound(w);
    hide Inv;
    FindsOwnRow(w, r, now, pk);
  }
}
