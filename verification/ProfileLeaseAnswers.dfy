/** What an acquire request is told, and what it leaves, from the tables before it. */
module ProfileLeaseAnswers {
  import opened Wrappers
  import opened ProfileLease
  import opened ProfileLeaseRuns
  import opened ProfileLeaseTheorems

  // ------------------------------------------------------------------ who speaks

  /** Row `pk` is the request that the poll carries. */
  predicate IsPolled(t: Tables, r: Request, pk: nat) {
    pk < |t.queue| && t.queue[pk].requestToken == r.requestToken && t.queue[pk].scopeKey == r.key && t.queue[pk].client == r.client
  }

  /** A live lease of the key with the token of an active row. */
  predicate HoldsLive(t: Tables, key: string, token: string, now: int) {
    key in t.leases && t.leases[key].ownerToken == token && now < t.leases[key].expiresAt
  }

  /** The request of row `pk` is over: closed, stale in the queue, or active without a live lease. */
  predicate IsOver(t: Tables, key: string, pk: nat, now: int)
    requires pk < |t.queue|
  {
    var row := t.queue[pk];
    match row.status
    case Completed => true
    case Expired => true
    case Queued => row.expiresAt <= now
    case Active => !HoldsLive(t, key, row.leaseToken, now)
  }

  function Swept(t: Tables, key: string, now: int): Tables {
    t.(queue := ExpireStale(t.queue, key, now))
  }

  lemma NobodyPolled(t: Tables, r: Request, now: int)
    requires r.requestToken != "" && forall pk: nat :: !IsPolled(t, r, pk)
    ensures Acquire(t, r, now) == (Swept(t, r.key, now), Gone)
  {
    var q := ExpireStale(t.queue, r.key, now);
    forall i | 0 <= i < |q| ensures !Carries(q[i], r.key, r.client, r.requestToken) {
      assert !IsPolled(t, r, i);
    }
  }

  lemma PolledRow(w: World, r: Request, now: int, pk: nat)
    requires Inv(w) && r.requestToken != "" && IsPolled(w.tables, r, pk)
    ensures Acquire(w.tables, r, now) == Poll(Swept(w.tables, r.key, now), r, pk, now)
    ensures w.tables.queue[pk].status == Active <==> w.tables.queue[pk].leaseToken != ""
  {
    FindsOwnRow(w, r, now, pk);
    hide Inv, Poll;
  }

  // ------------------------------------------------------------------ the answers

  /** A poll is told that its request is gone exactly when no row carries its token, or that
      request is over. */
  lemma GoneExactly(w: World, r: Request, now: int)
    requires Reachable(w) && Enabled(w, AcquireOp(now, r))
    ensures Acquire(w.tables, r, now).1 == Gone <==>
              r.requestToken != "" && forall pk: nat | IsPolled(w.tables, r, pk) :: IsOver(w.tables, r.key, pk, now)
  {
    ReachableSound(w);
    hide Inv, Reachable;
    if r.requestToken == "" {
      JoinContends(w.tables, r, now);
    } else if pk: nat :| IsPolled(w.tables, r, pk) {
      PolledRow(w, r, now, pk);
      OnlyOnePolled(w, r, pk);
      hide Acquire, Contend;
      ContendNeverGone(Swept(w.tables, r.key, now), r, pk, now);
    } else {
      NobodyPolled(w.tables, r, now);
    }
  }

  lemma ContendNeverGone(t: Tables, r: Request, pk: nat, now: int)
    requires pk < |t.queue|
    ensures Contend(t, r, pk, now).1 != Gone
  {
    hide Head;
  }

  lemma OnlyOnePolled(w: World, r: Request, pk: nat)
    requires Inv(w) && IsPolled(w.tables, r, pk)
    ensures forall i: nat | IsPolled(w.tables, r, i) :: i == pk
  {
    assert DistinctTokens(w);
  }

  /** A request that is told it may go on holds a live lease of its key, for at most 300 seconds. */
  lemma GrantsAreLive(w: World, r: Request, now: int)
    requires Reachable(w) && Enabled(w, AcquireOp(now, r))
    ensures var (t, response) := Acquire(w.tables, r, now);
            response.Granted? ==>
              && HoldsLive(t, r.key, response.leaseId, now)
              && t.leases[r.key].client == r.client && t.leases[r.key].expiresAt <= now + 300
  {
    ReachableSound(w);
    var (t, response) := Acquire(w.tables, r, now);
    if response.Granted? {
      if r.requestToken == "" {
        hide Inv, Reachable;
        JoinContends(w.tables, r, now);
        ContendGrants(JoinedTables(w.tables, r, now), r, |w.tables.queue|, now);
      } else if pk: nat :| IsPolled(w.tables, r, pk) {
        PolledRow(w, r, now, pk);
        LeaseOfRow(w, r.key, pk);
        LeaseIsShort(w, r.key);
        hide Inv, Reachable, Contend;
        ContendGrants(Swept(w.tables, r.key, now), r, pk, now);
      } else {
        NobodyPolled(w.tables, r, now);
      }
    }
  }

  lemma ContendGrants(t: Tables, r: Request, pk: nat, now: int)
    requires pk < |t.queue|
    ensures var (u, response) := Contend(t, r, pk, now);
            response.Granted? ==>
              && response.leaseId == r.newOwnerToken && r.key in u.leases && u.leases[r.key].ownerToken == r.newOwnerToken
              && u.leases[r.key].client == r.client && u.leases[r.key].expiresAt == now + 300
  {
    hide Head;
  }

  /** The lease that carries a row's token belongs to the row's client. */
  lemma LeaseOfRow(w: World, key: string, pk: nat)
    requires Inv(w) && pk < |w.tables.queue|
    ensures var row := w.tables.queue[pk];
            row.leaseToken != "" && OwnsLease(w.tables, key, row.leaseToken) ==> w.tables.leases[key].client == row.client
  {
    assert LeasesBacked(w) && DistinctTokens(w);
    if w.tables.queue[pk].leaseToken != "" && OwnsLease(w.tables, key, w.tables.queue[pk].leaseToken) {
      var i: nat :| Backs(w.tables, key, i);
      assert w.tables.queue[i].leaseToken == w.tables.queue[pk].leaseToken;
    }
  }

  /** No lease runs longer than 300 seconds from now on. */
  lemma LeaseIsShort(w: World, key: string)
    requires Inv(w)
    ensures key in w.tables.leases ==> w.tables.leases[key].expiresAt <= w.clock + 300
  {
    if key in w.tables.leases {
      assert LeasesBacked(w) && ActiveIssued(w) && TenuresSound(w) && GoneIsOver(w);
      var i: nat :| Backs(w.tables, key, i);
      var g: nat :| Issued(w, i, g);
      assert w.tenures[g].key == key && OwnsLease(w.tables, key, w.tenures[g].token);
    }
  }

  // ------------------------------------------------------------------ what it leaves

  /** The request went for the lease: it waits, or was granted anew. */
  predicate WentForLease(r: Request, response: Response) {
    response.Waiting? || response == Granted(r.newOwnerToken)
  }

  /** The lease of the key has run out. */
  predicate RanOut(t: Tables, key: string, now: int) {
    key in t.leases && t.leases[key].expiresAt <= now
  }

  /** What becomes of a row that is not the caller's: it expires when it is stale, when it is an
      older queued request of the same client for the key, or when it holds the lease that ran
      out; otherwise it stays. */
  function Bystander(t: Tables, r: Request, response: Response, row: QueueRow, now: int): QueueRow {
    if row.scopeKey != r.key then row
    else if row.status == Queued && row.expiresAt <= now then row.(status := Expired)
    else if row.status == Queued && r.requestToken == "" && row.client == r.client then row.(status := Expired, expiresAt := now)
    else if row.status == Active && WentForLease(r, response) && RanOut(t, r.key, now) && row.leaseToken == t.leases[r.key].ownerToken
    then row.(status := Expired, leaseToken := "", expiresAt := now)
    else row
  }

  /** What becomes of the caller's own row: a grant makes it active for 300 seconds, a poll after
      its lease ran out closes it, and a stale one expires. */
  function OwnRow(r: Request, response: Response, row: QueueRow, now: int): QueueRow {
    match response
    case Waiting(_, _) => row
    case Granted(token) =>
      if token == r.newOwnerToken then row.(status := Active, leaseToken := token, expiresAt := now + 300) else row
    case Gone =>
      if row.status == Active then row.(status := Expired, leaseToken := "", expiresAt := now)
      else if row.status == Queued && row.expiresAt <= now then row.(status := Expired)
      else row
  }

  /** The row of a new request: queued for twelve hours. */
  function JoinedRow(r: Request, now: int): QueueRow {
    QueueRow(r.key, r.newRequestToken, "", r.client, r.groupId, r.requestedCount, Queued, now + 43200, now)
  }

  /** The lease of the key afterwards; `own` is the caller's row before. */
  function LeaseLeft(t: Tables, r: Request, response: Response, own: Option<QueueRow>, now: int): Option<Lease> {
    var before := if r.key in t.leases then Some(t.leases[r.key]) else None;
    if response == Granted(r.newOwnerToken)
    then Some(Lease(r.newOwnerToken, r.client, r.groupId, if own.Some? then own.value.requestedCount else r.requestedCount, now + 300))
    else if response.Waiting? then (if RanOut(t, r.key, now) then None else before)
    else if response.Gone? && own.Some? && own.value.status == Active && before.Some? && before.value.ownerToken == own.value.leaseToken then None
    else before
  }

  /** The tables after an acquire, in these terms. */
  ghost predicate Leaves(t: Tables, r: Request, now: int, u: Tables, response: Response, own: Option<nat>)
    requires own.Some? ==> own.value < |t.queue|
  {
    && (forall key | key != r.key :: (key in u.leases <==> key in t.leases) && (key in t.leases ==> u.leases[key] == t.leases[key]))
    && (if r.key in u.leases then Some(u.leases[r.key]) else None) ==
         LeaseLeft(t, r, response, if own.Some? then Some(t.queue[own.value]) else None, now)
    && |u.queue| == |t.queue| + (if r.requestToken == "" then 1 else 0)
    && (forall i | 0 <= i < |t.queue| ::
          u.queue[i] == if own == Some(i) then OwnRow(r, response, t.queue[i], now) else Bystander(t, r, response, t.queue[i], now))
    && (r.requestToken == "" ==> u.queue[|t.queue|] == OwnRow(r, response, JoinedRow(r, now), now))
  }

  lemma ContendLeaves(t0: Tables, r: Request, pk: nat, now: int)
    requires pk < |t0.queue| && r.newOwnerToken != "" && t0.queue[pk].leaseToken == "" && t0.queue[pk].status == Queued
    ensures var (u, response) := Contend(t0, r, pk, now);
            && WentForLease(r, response)
            && (forall key | key != r.key :: (key in u.leases <==> key in t0.leases) && (key in t0.leases ==> u.leases[key] == t0.leases[key]))
            && (if r.key in u.leases then Some(u.leases[r.key]) else None) == LeaseLeft(t0, r, response, Some(t0.queue[pk]), now)
            && |u.queue| == |t0.queue|
            && (forall i | 0 <= i < |t0.queue| ::
                  u.queue[i] ==
                    if i == pk then OwnRow(r, response, t0.queue[i], now)
                    else if t0.queue[i].scopeKey == r.key && t0.queue[i].status == Active && RanOut(t0, r.key, now) &&
                            t0.queue[i].leaseToken == t0.leases[r.key].ownerToken
                    then t0.queue[i].(status := Expired, leaseToken := "", expiresAt := now)
                    else t0.queue[i])
  {
    hide Head, Position;
  }

  lemma JoinLeaves(w: World, r: Request, now: int)
    requires Inv(w) && r.requestToken == "" && r.newOwnerToken != ""
    ensures var (u, response) := Acquire(w.tables, r, now); Leaves(w.tables, r, now, u, response, None)
  {
    var t, n := w.tables, |w.tables.queue|;
    hide Inv, Contend;
    JoinContends(t, r, now);
    var t0 := JoinedTables(t, r, now);
    assert t0.leases == t.leases && |t0.queue| == n + 1 && t0.queue[n] == JoinedRow(r, now);
    hide Acquire;
    ContendLeaves(t0, r, n, now);
  }

  lemma PolledBystander(t: Tables, r: Request, response: Response, row: QueueRow, now: int)
    requires r.requestToken != "" && WentForLease(r, response)
    ensures var swept := ExpireStaleRow(row, r.key, now);
            Bystander(t, r, response, row, now) ==
              if swept.scopeKey == r.key && swept.status == Active && RanOut(t, r.key, now) && swept.leaseToken == t.leases[r.key].ownerToken
              then swept.(status := Expired, leaseToken := "", expiresAt := now) else swept
  {
  }

  /** A poll by a request that still waits. */
  lemma WaitingPollLeaves(t: Tables, r: Request, now: int, pk: nat)
    requires r.requestToken != "" && r.newOwnerToken != "" && pk < |t.queue| && t.queue[pk].leaseToken == ""
    requires t.queue[pk].status == Queued && now < t.queue[pk].expiresAt
    ensures var (u, response) := Contend(Swept(t, r.key, now), r, pk, now); Leaves(t, r, now, u, response, Some(pk))
  {
    var t0 := Swept(t, r.key, now);
    var (u, response) := Contend(t0, r, pk, now);
    assert t0.leases == t.leases && |t0.queue| == |t.queue| && t0.queue[pk] == t.queue[pk];
    ContendLeaves(t0, r, pk, now);
    forall i | 0 <= i < |t.queue| ensures i != pk ==> u.queue[i] == Bystander(t, r, response, t.queue[i], now) {
      PolledBystander(t, r, response, t.queue[i], now);
      assert t0.queue[i] == ExpireStaleRow(t.queue[i], r.key, now);
    }
    hide Contend, Bystander, OwnRow, ExpireStaleRow, WentForLease;
  }

  /** A poll by a request that is over, or that holds a lease. */
  lemma OtherPollLeaves(t: Tables, r: Request, now: int, pk: nat)
    requires r.requestToken != "" && pk < |t.queue| && t.queue[pk].leaseToken != r.newOwnerToken && t.queue[pk].scopeKey == r.key
    requires t.queue[pk].status == Active <==> t.queue[pk].leaseToken != ""
    requires t.queue[pk].status == Queued ==> t.queue[pk].expiresAt <= now
    ensures var (u, response) := Poll(Swept(t, r.key, now), r, pk, now); Leaves(t, r, now, u, response, Some(pk))
  {
    var t0 := Swept(t, r.key, now);
    assert t0.leases == t.leases && |t0.queue| == |t.queue|;
    hide Contend;
  }

  lemma PollLeaves(w: World, r: Request, now: int, pk: nat)
    requires Inv(w) && r.requestToken != "" && r.newOwnerToken != "" && IsPolled(w.tables, r, pk) && FreshOwner(w, r.newOwnerToken)
    ensures var (u, response) := Acquire(w.tables, r, now); Leaves(w.tables, r, now, u, response, Some(pk))
  {
    var t := w.tables;
    PolledRow(w, r, now, pk);
    OldTokensDiffer(w, r.newOwnerToken, pk);
    hide Inv, Acquire, Contend, FreshOwner, Leaves;
    if t.queue[pk].status == Queued && now < t.queue[pk].expiresAt {
      WaitingPollLeaves(t, r, now, pk);
    } else {
      OtherPollLeaves(t, r, now, pk);
    }
  }

  /** A fresh token is on no row. */
  lemma OldTokensDiffer(w: World, token: string, pk: nat)
    requires Inv(w) && FreshOwner(w, token) && pk < |w.tables.queue|
    ensures w.tables.queue[pk].leaseToken != token
  {
    assert RowsSound(w) && ActiveIssued(w);
    if w.tables.queue[pk].leaseToken != "" {
      var g: nat :| Issued(w, pk, g);
    }
  }

  /** Everything an acquire leaves, told from the tables before it and its answer: the caller's
      row, every other row, the lease of the key and those of other keys. */
  lemma AcquireLeaves(w: World, r: Request, now: int)
    requires Reachable(w) && Enabled(w, AcquireOp(now, r))
    ensures var (u, response) := Acquire(w.tables, r, now);
            if r.requestToken == "" then Leaves(w.tables, r, now, u, response, None)
            else
              && (forall pk: nat | IsPolled(w.tables, r, pk) :: Leaves(w.tables, r, now, u, response, Some(pk)))
              && ((forall pk: nat :: !IsPolled(w.tables, r, pk)) ==> Leaves(w.tables, r, now, u, response, None))
  {
    ReachableSound(w);
    hide Inv, Leaves;
    if r.requestToken == "" {
      JoinLeaves(w, r, now);
    } else {
      var (u, response) := Acquire(w.tables, r, now);
      forall pk: nat | IsPolled(w.tables, r, pk) ensures Leaves(w.tables, r, now, u, response, Some(pk)) {
        PollLeaves(w, r, now, pk);
      }
      if forall pk: nat :: !IsPolled(w.tables, r, pk) {
        NobodyPolled(w.tables, r, now);
        SweepLeaves(w.tables, r, now);
      }
    }
  }

  /** An active row that is told its request is gone ends, and so does its lease. */
  lemma GoneEndsTheHolder(w: World, r: Request, now: int, pk: nat)
    requires Reachable(w) && Enabled(w, AcquireOp(now, r)) && IsPolled(w.tables, r, pk) && w.tables.queue[pk].status == Active
    requires Acquire(w.tables, r, now).1 == Gone
    ensures var (t, u) := (w.tables, Acquire(w.tables, r, now).0);
            && u.queue[pk] == t.queue[pk].(status := Expired, leaseToken := "", expiresAt := now)
            && !(r.key in u.leases && u.leases[r.key].ownerToken == t.queue[pk].leaseToken)
  {
    hide Reachable, Enabled, Acquire;
    AcquireLeaves(w, r, now);
    assert r.requestToken != "" by {
      GoneExactly(w, r, now);
    }
  }

  lemma SweepLeaves(t: Tables, r: Request, now: int)
    requires r.requestToken != ""
    ensures Leaves(t, r, now, Swept(t, r.key, now), Gone, None)
  {
  }

  // ------------------------------------------------------------------ the reported position

  /** Rows that wait for the key before the request and will not be superseded by it, created
      strictly earlier than `at`. */
  function AheadOf(t: Tables, r: Request, now: int, at: int): set<nat> {
    set i: nat | i < |t.queue| && t.queue[i].scopeKey == r.key && t.queue[i].status == Queued && now < t.queue[i].expiresAt &&
                 (r.requestToken == "" ==> t.queue[i].client != r.client) && t.queue[i].createdAt < at
  }

  lemma JoinReports(w: World, r: Request, now: int)
    requires Inv(w) && r.requestToken == "" && Acquire(w.tables, r, now).1.Waiting?
    ensures var response := Acquire(w.tables, r, now).1;
            response.requestToken == r.newRequestToken && response.position == 1 + |AheadOf(w.tables, r, now, now)|
  {
    hide Inv;
    JoinContends(w.tables, r, now);
    var t0, n := JoinedTables(w.tables, r, now), |w.tables.queue|;
    JoinedQueue(w.tables, r, now);
    hide Acquire, Contend;
    ContendReports(t0, r, n, now, AheadOf(w.tables, r, now, now));
  }

  /** The queue that a new request contends on. */
  lemma JoinedQueue(t: Tables, r: Request, now: int)
    requires r.requestToken == ""
    ensures var t0, n := JoinedTables(t, r, now), |t.queue|;
            var u := Reap(t0, r.key, now);
            && n < |t0.queue| && t0.queue[n] == JoinedRow(r, now) && |u.queue| == |t0.queue|
            && AheadOf(t, r, now, now) == Earlier(u.queue, r.key, now, now)
  {
    JoinedRows(t, r, now);
  }

  lemma PollReports(w: World, r: Request, now: int, pk: nat)
    requires Inv(w) && r.requestToken != "" && IsPolled(w.tables, r, pk) && Acquire(w.tables, r, now).1.Waiting?
    ensures var response := Acquire(w.tables, r, now).1;
            response.requestToken == r.requestToken && response.position == 1 + |AheadOf(w.tables, r, now, w.tables.queue[pk].createdAt)|
  {
    PolledRow(w, r, now, pk);
    hide Inv, Acquire, Contend;
    SweptRowsStay(w.tables, r.key, now, pk);
    PolledQueue(w.tables, r, now, pk);
    ContendReports(Swept(w.tables, r.key, now), r, pk, now, AheadOf(w.tables, r, now, w.tables.queue[pk].createdAt));
  }

  /** The queue that a poll contends on. */
  lemma PolledQueue(t: Tables, r: Request, now: int, pk: nat)
    requires r.requestToken != "" && pk < |t.queue|
    ensures var t0 := Swept(t, r.key, now);
            var u := Reap(t0, r.key, now);
            && |u.queue| == |t0.queue| == |t.queue| && t0.queue[pk].createdAt == t.queue[pk].createdAt
            && AheadOf(t, r, now, t.queue[pk].createdAt) == Earlier(u.queue, r.key, now, t.queue[pk].createdAt)
  {
  }

  /** Whoever keeps waiting is told one more than the number of requests created strictly earlier. */
  lemma PositionExactly(w: World, r: Request, now: int)
    requires Reachable(w) && Enabled(w, AcquireOp(now, r))
    ensures var (u, response) := Acquire(w.tables, r, now);
            response.Waiting? ==>
              if r.requestToken == "" then response.requestToken == r.newRequestToken && response.position == 1 + |AheadOf(w.tables, r, now, now)|
              else
                && response.requestToken == r.requestToken
                && exists pk: nat ::
                     IsPolled(w.tables, r, pk) && response.position == 1 + |AheadOf(w.tables, r, now, w.tables.queue[pk].createdAt)|
  {
    ReachableSound(w);
    hide Inv, Reachable, Enabled, Acquire, AheadOf;
    if Acquire(w.tables, r, now).1.Waiting? {
      if r.requestToken == "" {
        JoinReports(w, r, now);
      } else if pk: nat :| IsPolled(w.tables, r, pk) {
        PollReports(w, r, now, pk);
      } else {
        NobodyPolled(w.tables, r, now);
      }
    }
  }

  lemma ContendReports(t0: Tables, r: Request, pk: nat, now: int, ahead: set<nat>)
    requires pk < |t0.queue| && Contend(t0, r, pk, now).1.Waiting?
    requires var u := Reap(t0, r.key, now); |u.queue| == |t0.queue| && ahead == Earlier(u.queue, r.key, now, t0.queue[pk].createdAt)
    requires t0.queue[pk].status == Queued && now < t0.queue[pk].expiresAt && t0.queue[pk].scopeKey == r.key
    ensures Contend(t0, r, pk, now).1.position == 1 + |ahead| && Contend(t0, r, pk, now).1.requestToken == t0.queue[pk].requestToken
  {
    var u := Reap(t0, r.key, now);
    var head := Head(u.queue, r.key, now, |u.queue|);
    assert u.queue[pk] == t0.queue[pk];
    if head == Some(pk) {
      forall i: nat | i < |u.queue| && IsWaiting(u.queue[i], r.key, now) && i != pk ensures u.queue[pk].createdAt <= u.queue[i].createdAt {
        assert Before(u.queue, pk, i);
      }
      assert ahead == {};
    }
  }
}
