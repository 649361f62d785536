/** Runs of lease requests: every interleaving of acquires, polls, cancels and the two
    statements of each release, under a clock that never goes back. */
module ProfileLeaseRuns {
  import opened ProfileLease

  /** A release that has run its first statement but not yet its second. */
  datatype Release = Release(key: string, client: nat, leaseId: string)

  /** One grant ever made.  The lease is live on `[at, end)`; a release shortens `end`. */
  datatype Tenure = Tenure(key: string, pk: nat, token: string, at: int, end: int)

  datatype World = World(tables: Tables, clock: int, tenures: seq<Tenure>, releasing: multiset<Release>)

  datatype Op =
    | AcquireOp(now: int, request: Request)
    | CancelOp(now: int, key: string, client: nat, requestToken: string)
    | DeleteOp(now: int, release: Release)
    | CloseOp(now: int, release: Release)

  const Start := World(Tables(map[], []), 0, [], multiset{})

  /** A token nobody has seen: neither recorded nor presented by a release under way. */
  ghost predicate FreshOwner(w: World, token: string) {
    && token != ""
    && (forall g :: 0 <= g < |w.tenures| ==> w.tenures[g].token != token)
    && (forall x :: x in w.releasing ==> x.leaseId != token)
  }

  ghost predicate FreshRequest(w: World, token: string) {
    && token != ""
    && (forall i :: 0 <= i < |w.tables.queue| ==> w.tables.queue[i].requestToken != token)
  }

  ghost predicate Enabled(w: World, op: Op) {
    && w.clock <= op.now
    && match op
       case AcquireOp(_, r) => FreshRequest(w, r.newRequestToken) && FreshOwner(w, r.newOwnerToken)
       case CancelOp(_, _, _, _) => true
       case DeleteOp(_, x) => x.leaseId != ""
       case CloseOp(_, x) => x in w.releasing
  }

  /** The row an acquire request speaks for. */
  function Entrant(t: Tables, r: Request): nat {
    if r.requestToken == "" then |t.queue|
    else
      match FindRequest(t.queue, r.key, r.client, r.requestToken, |t.queue|)
      case None => |t.queue|
      case Some(pk) => pk
  }

  function Recorded(tenures: seq<Tenure>, t: Tables, r: Request, now: int, response: Response): seq<Tenure> {
    if response == Granted(r.newOwnerToken)
    then tenures + [Tenure(r.key, Entrant(t, r), r.newOwnerToken, now, now + LEASE_SECONDS)]
    else tenures
  }

  function Shortened(tenures: seq<Tenure>, key: string, token: string, now: int): seq<Tenure> {
    seq(|tenures|, g requires 0 <= g < |tenures| =>
      if tenures[g].key == key && tenures[g].token == token && now < tenures[g].end
      then tenures[g].(end := now) else tenures[g])
  }

  function Step(w: World, op: Op): World {
    match op
    case AcquireOp(now, r) =>
      var (t, response) := Acquire(w.tables, r, now);
      w.(tables := t, clock := now, tenures := Recorded(w.tenures, w.tables, r, now, response))
    case CancelOp(now, key, client, requestToken) =>
      w.(tables := w.tables.(queue := Cancel(w.tables.queue, key, client, requestToken, now)), clock := now)
    case DeleteOp(now, x) =>
      World(
        DeleteLease(w.tables, x.key, x.client, x.leaseId),
        now,
        if HoldsLease(w.tables, x.key, x.client, x.leaseId)
        then Shortened(w.tenures, x.key, x.leaseId, now) else w.tenures,
        w.releasing + multiset{x})
    case CloseOp(now, x) =>
      w.(tables := w.tables.(queue := CloseReleased(w.tables.queue, x.key, x.client, x.leaseId)),
         clock := now,
         releasing := w.releasing - multiset{x})
  }

  function Run(w: World, ops: seq<Op>): World
    decreases |ops|
  {
    if ops == [] then w else Run(Step(w, ops[0]), ops[1..])
  }

  ghost predicate Legal(w: World, ops: seq<Op>)
    decreases |ops|
  {
    ops == [] || (Enabled(w, ops[0]) && Legal(Step(w, ops[0]), ops[1..]))
  }

  // ------------------------------------------------------------------ the invariant

  ghost predicate RowsSound(w: World) {
    forall i :: 0 <= i < |w.tables.queue| ==>
      var row := w.tables.queue[i];
      && (row.status == Active <==> row.leaseToken != "")
      && row.requestToken != ""
      && row.createdAt <= w.clock
  }

  ghost predicate InArrivalOrder(w: World) {
    forall i, j :: 0 <= i < j < |w.tables.queue| ==> w.tables.queue[i].createdAt <= w.tables.queue[j].createdAt
  }

  ghost predicate DistinctTokens(w: World) {
    forall i, j :: 0 <= i < j < |w.tables.queue| ==>
      && w.tables.queue[i].requestToken != w.tables.queue[j].requestToken
      && (w.tables.queue[i].leaseToken != "" ==> w.tables.queue[i].leaseToken != w.tables.queue[j].leaseToken)
  }

  ghost predicate OneRequestPerClient(w: World) {
    forall i, j :: 0 <= i < j < |w.tables.queue| ==>
      var a, b := w.tables.queue[i], w.tables.queue[j];
      !(a.status == Queued && b.status == Queued && a.scopeKey == b.scopeKey && a.client == b.client)
  }

  /** Row `pk` is the active row behind the lease of `key`. */
  predicate Backs(t: Tables, key: string, pk: nat)
    requires key in t.leases
  {
    && pk < |t.queue|
    && t.queue[pk].scopeKey == key
    && t.queue[pk].status == Active
    && t.queue[pk].leaseToken == t.leases[key].ownerToken
    && t.queue[pk].client == t.leases[key].client
    && t.queue[pk].expiresAt == t.leases[key].expiresAt
  }

  ghost predicate LeasesBacked(w: World) {
    forall key :: key in w.tables.leases ==> exists pk: nat :: Backs(w.tables, key, pk)
  }

  /** An active row holds the lease, or a release of it is about to close the row. */
  predicate Accounted(w: World, row: QueueRow) {
    OwnsLease(w.tables, row.scopeKey, row.leaseToken) ||
    Release(row.scopeKey, row.client, row.leaseToken) in w.releasing
  }

  ghost predicate ActiveAccounted(w: World) {
    forall i :: 0 <= i < |w.tables.queue| && w.tables.queue[i].status == Active ==> Accounted(w, w.tables.queue[i])
  }

  ghost predicate TenuresSound(w: World) {
    forall g :: 0 <= g < |w.tenures| ==>
      var x := w.tenures[g];
      && x.pk < |w.tables.queue|
      && w.tables.queue[x.pk].scopeKey == x.key
      && w.tables.queue[x.pk].status != Queued
      && x.token != ""
      && x.at <= w.clock
      && x.at <= x.end <= x.at + LEASE_SECONDS
  }

  predicate Issued(w: World, pk: nat, g: nat)
    requires pk < |w.tables.queue|
  {
    g < |w.tenures| && w.tenures[g].pk == pk && w.tenures[g].token == w.tables.queue[pk].leaseToken
  }

  ghost predicate ActiveIssued(w: World) {
    forall i :: 0 <= i < |w.tables.queue| && w.tables.queue[i].status == Active ==> exists g: nat :: Issued(w, i, g)
  }

  ghost predicate DistinctTenures(w: World) {
    forall g, h :: 0 <= g < h < |w.tenures| ==>
      w.tenures[g].token != w.tenures[h].token && w.tenures[g].pk != w.tenures[h].pk
  }

  /** A lease that is no longer in the table is over. */
  ghost predicate GoneIsOver(w: World) {
    forall g :: 0 <= g < |w.tenures| ==>
      var x := w.tenures[g];
      if OwnsLease(w.tables, x.key, x.token) then x.end == w.tables.leases[x.key].expiresAt else x.end <= w.clock
  }

  ghost predicate MutuallyExclusive(w: World) {
    forall g, h :: 0 <= g < h < |w.tenures| && w.tenures[g].key == w.tenures[h].key ==>
      w.tenures[g].end <= w.tenures[h].at
  }

  ghost predicate GrantedInOrder(w: World) {
    forall g, h :: 0 <= g < h < |w.tenures| && w.tenures[g].key == w.tenures[h].key ==>
      && w.tenures[g].pk < |w.tables.queue| && w.tenures[h].pk < |w.tables.queue|
      && Before(w.tables.queue, w.tenures[g].pk, w.tenures[h].pk)
  }

  ghost predicate WaitersLater(w: World) {
    forall g, i: nat | 0 <= g < |w.tenures| && i < |w.tables.queue| ::
      w.tables.queue[i].status == Queued && w.tables.queue[i].scopeKey == w.tenures[g].key ==>
        w.tenures[g].pk < |w.tables.queue| && Before(w.tables.queue, w.tenures[g].pk, i)
  }

  ghost predicate QueueInv(w: World) {
    RowsSound(w) && InArrivalOrder(w) && DistinctTokens(w) && OneRequestPerClient(w)
  }

  ghost predicate LeaseInv(w: World) {
    LeasesBacked(w) && ActiveAccounted(w)
  }

  ghost predicate HistoryInv(w: World) {
    && TenuresSound(w) && ActiveIssued(w) && DistinctTenures(w)
    && MutuallyExclusive(w) && GrantedInOrder(w) && WaitersLater(w)
  }

  /** A release under way no longer finds its lease. */
  ghost predicate ReleasedAreGone(w: World) {
    forall x :: x in w.releasing ==> x.leaseId != "" && !HoldsLease(w.tables, x.key, x.client, x.leaseId)
  }

  ghost predicate Inv(w: World) {
    QueueInv(w) && LeaseInv(w) && HistoryInv(w) && GoneIsOver(w) && ReleasedAreGone(w)
  }

  // ------------------------------------------------------------------ elementary changes keep it

  lemma ClockKeeps(w: World, now: int)
    requires Inv(w) && w.clock <= now
    ensures Inv(w.(clock := now))
  {
    var v := w.(clock := now);
    assert v.tables == w.tables && v.tenures == w.tenures && v.releasing == w.releasing;
    forall i | 0 <= i < |v.tables.queue| && v.tables.queue[i].status == Active ensures exists g: nat :: Issued(v, i, g) {
      var g: nat :| Issued(w, i, g);
      assert Issued(v, i, g);
    }
    forall i | 0 <= i < |v.tables.queue| && v.tables.queue[i].status == Active ensures Accounted(v, v.tables.queue[i]) {
      assert Accounted(w, w.tables.queue[i]);
    }
  }

  /** `b` is `a`, or `a` taken out of the queue for good. */
  predicate Settled(a: QueueRow, b: QueueRow) {
    b == a ||
    (&& b.scopeKey == a.scopeKey && b.requestToken == a.requestToken && b.client == a.client && b.createdAt == a.createdAt
     && b.leaseToken == "" && (b.status == Completed || b.status == Expired))
  }

  predicate AllSettled(p: seq<QueueRow>, q: seq<QueueRow>) {
    |p| == |q| && forall i :: 0 <= i < |p| ==> Settled(p[i], q[i])
  }

  lemma SettlingKeepsQueue(w: World, v: World)
    requires QueueInv(w) && AllSettled(w.tables.queue, v.tables.queue) && w.clock <= v.clock
    ensures QueueInv(v)
  {
    var p, q := w.tables.queue, v.tables.queue;
    forall i | 0 <= i < |q|
      ensures (q[i].status == Active <==> q[i].leaseToken != "") && q[i].requestToken != "" && q[i].createdAt <= v.clock
    {
      assert Settled(p[i], q[i]);
    }
    forall i, j | 0 <= i < j < |q|
      ensures q[i].createdAt <= q[j].createdAt && q[i].requestToken != q[j].requestToken
      ensures q[i].leaseToken != "" ==> q[i].leaseToken != q[j].leaseToken
      ensures !(q[i].status == Queued && q[j].status == Queued && q[i].scopeKey == q[j].scopeKey && q[i].client == q[j].client)
    {
      assert Settled(p[i], q[i]) && Settled(p[j], q[j]);
    }
  }

  lemma SettlingKeepsHistory(w: World, v: World)
    requires HistoryInv(w) && AllSettled(w.tables.queue, v.tables.queue)
    requires w.clock <= v.clock && v.tenures == w.tenures
    requires RowsSound(w) && RowsSound(v)
    ensures HistoryInv(v)
  {
    var p, q := w.tables.queue, v.tables.queue;
    forall g | 0 <= g < |v.tenures|
      ensures v.tenures[g].pk < |q| && q[v.tenures[g].pk].scopeKey == v.tenures[g].key && q[v.tenures[g].pk].status != Queued
    {
      assert Settled(p[v.tenures[g].pk], q[v.tenures[g].pk]);
    }
    assert TenuresSound(v);
    forall i | 0 <= i < |q| && q[i].status == Active ensures exists g: nat :: Issued(v, i, g) {
      assert Settled(p[i], q[i]);
      var g: nat :| Issued(w, i, g);
      assert Issued(v, i, g);
    }
    forall g, h | 0 <= g < h < |v.tenures| && v.tenures[g].key == v.tenures[h].key
      ensures Before(q, v.tenures[g].pk, v.tenures[h].pk)
    {
      assert Settled(p[v.tenures[g].pk], q[v.tenures[g].pk]) && Settled(p[v.tenures[h].pk], q[v.tenures[h].pk]);
      assert Before(p, w.tenures[g].pk, w.tenures[h].pk);
    }
    forall g, i: nat | 0 <= g < |v.tenures| && i < |q| && q[i].status == Queued && q[i].scopeKey == v.tenures[g].key
      ensures Before(q, v.tenures[g].pk, i)
    {
      assert Settled(p[v.tenures[g].pk], q[v.tenures[g].pk]) && Settled(p[i], q[i]);
      assert Before(p, w.tenures[g].pk, i);
    }
  }

  /** Queued rows leave: stale ones, superseded ones, cancelled ones. */
  lemma SheddingKeeps(w: World, q: seq<QueueRow>)
    requires Inv(w) && AllSettled(w.tables.queue, q)
    requires forall i :: 0 <= i < |q| && q[i] != w.tables.queue[i] ==> w.tables.queue[i].status == Queued
    ensures Inv(w.(tables := w.tables.(queue := q)))
  {
    var v := w.(tables := w.tables.(queue := q));
    SettlingKeepsQueue(w, v);
    SettlingKeepsHistory(w, v);
    forall key | key in v.tables.leases ensures exists pk: nat :: Backs(v.tables, key, pk) {
      var pk: nat :| Backs(w.tables, key, pk);
      assert Backs(v.tables, key, pk);
    }
    forall i | 0 <= i < |q| && q[i].status == Active ensures Accounted(v, q[i]) {
      assert Accounted(w, w.tables.queue[i]);
    }
    forall g | 0 <= g < |v.tenures|
      ensures OwnsLease(v.tables, v.tenures[g].key, v.tenures[g].token) <==>
              OwnsLease(w.tables, w.tenures[g].key, w.tenures[g].token)
    {}
  }

  /** Lease `token` of `key` is out of the table and so is every active row with it. */
  ghost predicate Cleared(w: World, v: World, key: string, token: string) {
    && AllSettled(w.tables.queue, v.tables.queue)
    && (v.tables.leases == w.tables.leases || (OwnsLease(w.tables, key, token) && v.tables.leases == w.tables.leases - {key}))
    && !OwnsLease(v.tables, key, token)
    && (forall i | 0 <= i < |v.tables.queue| :: v.tables.queue[i] != w.tables.queue[i] ==>
          w.tables.queue[i].scopeKey == key && w.tables.queue[i].leaseToken == token)
    && (forall i | 0 <= i < |v.tables.queue| :: v.tables.queue[i].status == Active ==>
          v.tables.queue[i].leaseToken != token || v.tables.queue[i].scopeKey != key)
    && (forall x :: x in w.releasing && x !in v.releasing ==> x.key == key && x.leaseId == token)
  }

  lemma ClosingKeepsLeases(w: World, v: World, key: string, token: string)
    requires LeaseInv(w) && Cleared(w, v, key, token) && token != ""
    ensures LeaseInv(v)
  {
    var p, q := w.tables.queue, v.tables.queue;
    forall k | k in v.tables.leases ensures exists pk: nat :: Backs(v.tables, k, pk) {
      var pk: nat :| Backs(w.tables, k, pk);
      assert q[pk] == p[pk];
      assert Backs(v.tables, k, pk);
    }
    forall i | 0 <= i < |q| && q[i].status == Active ensures Accounted(v, q[i]) {
      assert Settled(p[i], q[i]);
      assert Accounted(w, p[i]);
    }
  }

  lemma ClosingKeeps(w: World, v: World, key: string, token: string)
    requires Inv(w) && Cleared(w, v, key, token) && token != ""
    requires v.clock == w.clock && v.tenures == w.tenures
    requires OwnsLease(w.tables, key, token) ==> w.tables.leases[key].expiresAt <= w.clock
    requires forall x :: x in v.releasing ==> x in w.releasing
    ensures Inv(v)
  {
    SettlingKeepsQueue(w, v);
    SettlingKeepsHistory(w, v);
    ClosingKeepsLeases(w, v, key, token);
    forall g | 0 <= g < |v.tenures|
      ensures if OwnsLease(v.tables, v.tenures[g].key, v.tenures[g].token)
              then v.tenures[g].end == v.tables.leases[v.tenures[g].key].expiresAt else v.tenures[g].end <= v.clock
    {
      assert v.tenures[g] == w.tenures[g];
    }
  }

  lemma JoiningKeepsQueue(w: World, v: World, r: Request)
    requires QueueInv(w) && FreshRequest(w, r.newRequestToken)
    requires v.clock == w.clock && v.tables.queue == w.tables.queue + [NewRow(r, w.clock)]
    requires forall i :: 0 <= i < |w.tables.queue| ==>
               !(w.tables.queue[i].status == Queued && w.tables.queue[i].scopeKey == r.key && w.tables.queue[i].client == r.client)
    ensures QueueInv(v)
  {
    assert forall i :: 0 <= i < |w.tables.queue| ==> v.tables.queue[i] == w.tables.queue[i];
  }

  lemma JoiningKeepsLeases(w: World, v: World, r: Request)
    requires LeaseInv(w) && v == w.(tables := w.tables.(queue := w.tables.queue + [NewRow(r, w.clock)]))
    ensures LeaseInv(v)
  {
    forall key | key in v.tables.leases ensures exists pk: nat :: Backs(v.tables, key, pk) {
      var pk: nat :| Backs(w.tables, key, pk);
      assert Backs(v.tables, key, pk);
    }
    forall i | 0 <= i < |v.tables.queue| && v.tables.queue[i].status == Active ensures Accounted(v, v.tables.queue[i]) {
      assert Accounted(w, w.tables.queue[i]);
    }
  }

  lemma JoiningKeepsHistory(w: World, v: World, r: Request)
    requires HistoryInv(w) && RowsSound(w)
    requires v == w.(tables := w.tables.(queue := w.tables.queue + [NewRow(r, w.clock)]))
    ensures HistoryInv(v)
  {
    var p, q := w.tables.queue, v.tables.queue;
    assert forall i :: 0 <= i < |p| ==> q[i] == p[i];
    forall i | 0 <= i < |q| && q[i].status == Active ensures exists g: nat :: Issued(v, i, g) {
      var g: nat :| Issued(w, i, g);
      assert Issued(v, i, g);
    }
    forall g, h | 0 <= g < h < |v.tenures| && v.tenures[g].key == v.tenures[h].key
      ensures Before(q, v.tenures[g].pk, v.tenures[h].pk)
    {
      assert Before(p, w.tenures[g].pk, w.tenures[h].pk);
    }
    forall g, i: nat | 0 <= g < |v.tenures| && i < |q| && q[i].status == Queued && q[i].scopeKey == v.tenures[g].key
      ensures Before(q, v.tenures[g].pk, i)
    {
      if i < |p| {
        assert Before(p, w.tenures[g].pk, i);
      }
    }
  }

  lemma JoiningKeeps(w: World, r: Request)
    requires Inv(w) && FreshRequest(w, r.newRequestToken)
    requires forall i :: 0 <= i < |w.tables.queue| ==>
               !(w.tables.queue[i].status == Queued && w.tables.queue[i].scopeKey == r.key && w.tables.queue[i].client == r.client)
    ensures Inv(w.(tables := w.tables.(queue := w.tables.queue + [NewRow(r, w.clock)])))
  {
    var v := w.(tables := w.tables.(queue := w.tables.queue + [NewRow(r, w.clock)]));
    JoiningKeepsQueue(w, v, r);
    JoiningKeepsLeases(w, v, r);
    JoiningKeepsHistory(w, v, r);
  }

  function AfterGrant(w: World, r: Request, pk: nat): World
    requires pk < |w.tables.queue|
  {
    World(Grant(w.tables, r, pk, w.clock), w.clock,
          w.tenures + [Tenure(r.key, pk, r.newOwnerToken, w.clock, w.clock + LEASE_SECONDS)], w.releasing)
  }

  /** The row that may enter is the caller's, and no queued row of the key is stale. */
  ghost predicate Entering(w: World, r: Request, pk: nat) {
    && pk < |w.tables.queue| && MayEnter(w.tables, r.key, pk, w.clock) && w.tables.queue[pk].client == r.client
    && (forall i | 0 <= i < |w.tables.queue| ::
          w.tables.queue[i].status == Queued && w.tables.queue[i].scopeKey == r.key ==>
            IsWaiting(w.tables.queue[i], r.key, w.clock))
  }

  lemma GrantingKeepsQueue(w: World, r: Request, pk: nat)
    requires QueueInv(w) && ActiveIssued(w) && FreshOwner(w, r.newOwnerToken) && Entering(w, r, pk)
    ensures QueueInv(AfterGrant(w, r, pk))
  {
    var p, q := w.tables.queue, AfterGrant(w, r, pk).tables.queue;
    assert forall i :: 0 <= i < |q| && i != pk ==> q[i] == p[i];
    forall i | 0 <= i < |p| ensures p[i].leaseToken != r.newOwnerToken {
      if p[i].status == Active {
        var g: nat :| Issued(w, i, g);
      }
    }
  }

  lemma GrantingKeepsLeases(w: World, r: Request, pk: nat)
    requires LeaseInv(w) && Entering(w, r, pk)
    ensures LeaseInv(AfterGrant(w, r, pk))
  {
    var v := AfterGrant(w, r, pk);
    forall key | key in v.tables.leases ensures exists i: nat :: Backs(v.tables, key, i) {
      if key == r.key {
        assert Backs(v.tables, key, pk);
      } else {
        var i: nat :| Backs(w.tables, key, i);
        assert Backs(v.tables, key, i);
      }
    }
    forall i | 0 <= i < |v.tables.queue| && v.tables.queue[i].status == Active ensures Accounted(v, v.tables.queue[i]) {
      if i != pk {
        assert Accounted(w, w.tables.queue[i]);
      }
    }
  }

  lemma GrantingKeepsTenures(w: World, r: Request, pk: nat)
    requires TenuresSound(w) && ActiveIssued(w) && DistinctTenures(w) && FreshOwner(w, r.newOwnerToken) && Entering(w, r, pk)
    ensures TenuresSound(AfterGrant(w, r, pk)) && ActiveIssued(AfterGrant(w, r, pk)) && DistinctTenures(AfterGrant(w, r, pk))
  {
    var v := AfterGrant(w, r, pk);
    var p, q := w.tables.queue, v.tables.queue;
    assert forall i :: 0 <= i < |q| && i != pk ==> q[i] == p[i];
    forall g | 0 <= g < |w.tenures| ensures w.tenures[g].pk != pk {
      assert p[w.tenures[g].pk].status != Queued;
    }
    forall i | 0 <= i < |q| && q[i].status == Active ensures exists g: nat :: Issued(v, i, g) {
      if i == pk {
        assert Issued(v, i, |w.tenures|);
      } else {
        var g: nat :| Issued(w, i, g);
        assert Issued(v, i, g);
      }
    }
  }

  lemma GrantingKeepsOrder(w: World, r: Request, pk: nat)
    requires GrantedInOrder(w) && WaitersLater(w) && TenuresSound(w) && Entering(w, r, pk)
    ensures GrantedInOrder(AfterGrant(w, r, pk)) && WaitersLater(AfterGrant(w, r, pk))
  {
    var v := AfterGrant(w, r, pk);
    var p, q := w.tables.queue, v.tables.queue;
    assert forall i, j :: 0 <= i < |q| && 0 <= j < |q| ==> Before(q, i, j) == Before(p, i, j);
    forall g, h | 0 <= g < h < |v.tenures| && v.tenures[g].key == v.tenures[h].key
      ensures Before(q, v.tenures[g].pk, v.tenures[h].pk)
    {
      assert v.tenures[g] == w.tenures[g];
      if h == |w.tenures| {
        assert Before(p, w.tenures[g].pk, pk);
      } else {
        assert Before(p, w.tenures[g].pk, w.tenures[h].pk);
      }
    }
    forall g, i: nat | 0 <= g < |v.tenures| && i < |q| && q[i].status == Queued && q[i].scopeKey == v.tenures[g].key
      ensures Before(q, v.tenures[g].pk, i)
    {
      assert p[i].status == Queued && p[i].scopeKey == q[i].scopeKey;
      if g == |w.tenures| {
        assert IsWaiting(p[i], r.key, w.clock);
        assert Before(p, pk, i);
      } else {
        assert Before(p, w.tenures[g].pk, i);
      }
    }
  }

  lemma GrantingKeepsExclusion(w: World, r: Request, pk: nat)
    requires MutuallyExclusive(w) && GoneIsOver(w) && FreshOwner(w, r.newOwnerToken) && Entering(w, r, pk)
    ensures MutuallyExclusive(AfterGrant(w, r, pk)) && GoneIsOver(AfterGrant(w, r, pk))
  {
    var v := AfterGrant(w, r, pk);
    forall g | 0 <= g < |w.tenures| && w.tenures[g].key == r.key ensures w.tenures[g].end <= w.clock {
      assert !OwnsLease(w.tables, w.tenures[g].key, w.tenures[g].token);
    }
    forall g | 0 <= g < |v.tenures|
      ensures if OwnsLease(v.tables, v.tenures[g].key, v.tenures[g].token)
              then v.tenures[g].end == v.tables.leases[v.tenures[g].key].expiresAt else v.tenures[g].end <= v.clock
    {
      if g < |w.tenures| {
        assert w.tenures[g].token != r.newOwnerToken;
      }
    }
  }

  lemma GrantingKeeps(w: World, r: Request, pk: nat)
    requires Inv(w) && FreshOwner(w, r.newOwnerToken) && Entering(w, r, pk)
    ensures Inv(AfterGrant(w, r, pk))
  {
    GrantingKeepsQueue(w, r, pk);
    GrantingKeepsLeases(w, r, pk);
    GrantingKeepsTenures(w, r, pk);
    GrantingKeepsOrder(w, r, pk);
    GrantingKeepsExclusion(w, r, pk);
  }

  // ------------------------------------------------------------------ every request keeps it

  lemma ReapingKeeps(w: World, key: string)
    requires Inv(w)
    ensures Inv(w.(tables := Reap(w.tables, key, w.clock)))
    ensures key in Reap(w.tables, key, w.clock).leases ==> w.clock < Reap(w.tables, key, w.clock).leases[key].expiresAt
  {
    if key in w.tables.leases && w.tables.leases[key].expiresAt <= w.clock {
      var pk: nat :| Backs(w.tables, key, pk);
      ClosingKeeps(w, w.(tables := Reap(w.tables, key, w.clock)), key, w.tables.leases[key].ownerToken);
    } else {
      assert w.(tables := w.tables) == w;
    }
  }

  /** The row `pk` of the caller as it reaches the head check. */
  ghost predicate Contender(w: World, r: Request, pk: nat) {
    && pk < |w.tables.queue|
    && w.tables.queue[pk].client == r.client && w.tables.queue[pk].scopeKey == r.key
    && (forall i | 0 <= i < |w.tables.queue| ::
          w.tables.queue[i].status == Queued && w.tables.queue[i].scopeKey == r.key ==>
            IsWaiting(w.tables.queue[i], r.key, w.clock))
  }

  function AfterContend(w: World, r: Request, pk: nat): World
    requires pk < |w.tables.queue|
  {
    var (t, response) := Contend(w.tables, r, pk, w.clock);
    w.(tables := t,
       tenures := if response == Granted(r.newOwnerToken)
                  then w.tenures + [Tenure(r.key, pk, r.newOwnerToken, w.clock, w.clock + LEASE_SECONDS)]
                  else w.tenures)
  }

  lemma ContendingKeeps(w: World, r: Request, pk: nat)
    requires Inv(w) && FreshOwner(w, r.newOwnerToken) && Contender(w, r, pk)
    ensures Inv(AfterContend(w, r, pk))
  {
    hide Inv;
    ReapingKeeps(w, r.key);
    var v := w.(tables := Reap(w.tables, r.key, w.clock));
    assert |v.tables.queue| == |w.tables.queue|;
    assert forall i :: 0 <= i < |v.tables.queue| ==> Settled(w.tables.queue[i], v.tables.queue[i]);
    if MayEnter(v.tables, r.key, pk, w.clock) {
      assert Entering(v, r, pk);
      GrantingKeeps(v, r, pk);
      assert AfterContend(w, r, pk) == AfterGrant(v, r, pk);
    } else {
      assert AfterContend(w, r, pk) == v;
    }
  }

  lemma StaleExpiryKeeps(w: World, key: string)
    requires Inv(w)
    ensures Inv(Swept(w, key))
  {
    SheddingKeeps(w, ExpireStale(w.tables.queue, key, w.clock));
  }

  function Swept(w: World, key: string): World {
    w.(tables := w.tables.(queue := ExpireStale(w.tables.queue, key, w.clock)))
  }

  function Joined(w: World, r: Request): World {
    w.(tables := w.tables.(queue := Supersede(w.tables.queue, r.key, r.client, w.clock) + [NewRow(r, w.clock)]))
  }

  lemma JoinedKeeps(w: World, r: Request)
    requires Inv(w) && FreshRequest(w, r.newRequestToken)
    ensures Inv(Joined(w, r))
  {
    assert RowsSound(w);
    hide Inv;
    var b := w.(tables := w.tables.(queue := Supersede(w.tables.queue, r.key, r.client, w.clock)));
    assert forall i :: 0 <= i < |w.tables.queue| ==> Settled(w.tables.queue[i], b.tables.queue[i]);
    SheddingKeeps(w, b.tables.queue);
    JoiningKeeps(b, r);
    assert b.(tables := b.tables.(queue := b.tables.queue + [NewRow(r, b.clock)])) == Joined(w, r);
  }

  lemma JoiningStepKeeps(w: World, r: Request)
    requires Inv(w) && FreshRequest(w, r.newRequestToken) && FreshOwner(w, r.newOwnerToken) && r.requestToken == ""
    ensures Inv(Step(w, AcquireOp(w.clock, r)))
  {
    hide Inv;
    StaleExpiryKeeps(w, r.key);
    var a := Swept(w, r.key);
    JoinedKeeps(a, r);
    var c := Joined(a, r);
    ContendingKeeps(c, r, |w.tables.queue|);
    assert Step(w, AcquireOp(w.clock, r)) == AfterContend(c, r, |w.tables.queue|);
  }

  lemma DroppingKeeps(w: World, key: string, pk: nat)
    requires Inv(w) && pk < |w.tables.queue| && w.tables.queue[pk].scopeKey == key && w.tables.queue[pk].leaseToken != ""
    requires OwnsLease(w.tables, key, w.tables.queue[pk].leaseToken) ==> w.tables.leases[key].expiresAt <= w.clock
    ensures Inv(w.(tables := DropPolled(w.tables, key, pk, w.clock)))
  {
    var v := w.(tables := DropPolled(w.tables, key, pk, w.clock));
    var token := w.tables.queue[pk].leaseToken;
    forall i | 0 <= i < |w.tables.queue| ensures Settled(w.tables.queue[i], v.tables.queue[i]) {}
    assert Cleared(w, v, key, token) by {
      forall i | 0 <= i < |v.tables.queue| && i != pk && v.tables.queue[i].status == Active
        ensures v.tables.queue[i].leaseToken != token
      {
        assert v.tables.queue[i] == w.tables.queue[i];
      }
    }
    ClosingKeeps(w, v, key, token);
  }

  function AfterPoll(w: World, r: Request, pk: nat): World
    requires pk < |w.tables.queue|
  {
    var (t, response) := Poll(w.tables, r, pk, w.clock);
    w.(tables := t,
       tenures := if response == Granted(r.newOwnerToken)
                  then w.tenures + [Tenure(r.key, pk, r.newOwnerToken, w.clock, w.clock + LEASE_SECONDS)]
                  else w.tenures)
  }

  lemma PollKeeps(w: World, r: Request, pk: nat)
    requires Inv(w) && FreshOwner(w, r.newOwnerToken) && Contender(w, r, pk)
    ensures Inv(AfterPoll(w, r, pk))
  {
    var row := w.tables.queue[pk];
    assert row.status == Active <==> row.leaseToken != "";
    assert row.status == Active ==> exists g: nat :: Issued(w, pk, g);
    hide Inv;
    if row.status == Active {
      var g: nat :| Issued(w, pk, g);
      if OwnsLease(w.tables, r.key, row.leaseToken) && w.tables.leases[r.key].expiresAt > w.clock {
        assert AfterPoll(w, r, pk) == w;
      } else {
        DroppingKeeps(w, r.key, pk);
      }
    } else if row.status == Queued {
      ContendingKeeps(w, r, pk);
      assert AfterPoll(w, r, pk) == AfterContend(w, r, pk);
    } else {
      assert AfterPoll(w, r, pk) == w;
    }
  }

  lemma PollingStepKeeps(w: World, r: Request)
    requires Inv(w) && FreshOwner(w, r.newOwnerToken) && r.requestToken != ""
    ensures Inv(Step(w, AcquireOp(w.clock, r)))
  {
    hide Inv;
    var a := Swept(w, r.key);
    StaleExpiryKeeps(w, r.key);
    SameRequestFound(w.tables.queue, r.key, w.clock, r.client, r.requestToken, |w.tables.queue|);
    var found := FindRequest(a.tables.queue, r.key, r.client, r.requestToken, |a.tables.queue|);
    if found.Some? {
      PollKeeps(a, r, found.value);
      assert Step(w, AcquireOp(w.clock, r)) == AfterPoll(a, r, found.value);
    } else {
      assert Step(w, AcquireOp(w.clock, r)) == a;
    }
  }

  lemma {:induction false} SameRequestFound(q: seq<QueueRow>, key: string, now: int, client: nat, requestToken: string, n: nat)
    requires n <= |q|
    ensures FindRequest(ExpireStale(q, key, now), key, client, requestToken, n) == FindRequest(q, key, client, requestToken, n)
  {
    if n > 0 {
      SameRequestFound(q, key, now, client, requestToken, n - 1);
    }
  }

  lemma CancelStepKeeps(w: World, key: string, client: nat, requestToken: string)
    requires Inv(w)
    ensures Inv(Step(w, CancelOp(w.clock, key, client, requestToken)))
  {
    SheddingKeeps(w, Cancel(w.tables.queue, key, client, requestToken, w.clock));
  }

  lemma DeleteStepKeepsLeases(w: World, x: Release)
    requires LeaseInv(w) && DistinctTokens(w) && x.leaseId != ""
    ensures LeaseInv(Step(w, DeleteOp(w.clock, x)))
  {
    var v := Step(w, DeleteOp(w.clock, x));
    assert v.tables.queue == w.tables.queue;
    forall key | key in v.tables.leases ensures exists pk: nat :: Backs(v.tables, key, pk) {
      var pk: nat :| Backs(w.tables, key, pk);
      assert Backs(v.tables, key, pk);
    }
    forall i | 0 <= i < |v.tables.queue| && v.tables.queue[i].status == Active ensures Accounted(v, v.tables.queue[i]) {
      var row := w.tables.queue[i];
      assert Accounted(w, row);
      if OwnsLease(w.tables, row.scopeKey, row.leaseToken) && !OwnsLease(v.tables, row.scopeKey, row.leaseToken) {
        var pk: nat :| Backs(w.tables, x.key, pk);
        assert pk == i;
        assert Release(row.scopeKey, row.client, row.leaseToken) == x;
      }
    }
  }

  lemma DeleteStepKeepsHistory(w: World, x: Release)
    requires HistoryInv(w) && GoneIsOver(w)
    ensures HistoryInv(Step(w, DeleteOp(w.clock, x))) && GoneIsOver(Step(w, DeleteOp(w.clock, x)))
  {
    var v := Step(w, DeleteOp(w.clock, x));
    assert v.tables.queue == w.tables.queue && |v.tenures| == |w.tenures|;
    forall g | 0 <= g < |v.tenures|
      ensures v.tenures[g] == w.tenures[g].(end := v.tenures[g].end)
      ensures w.tenures[g].at <= v.tenures[g].end <= w.tenures[g].end
    {}
    assert v.clock == w.clock;
    forall i | 0 <= i < |v.tables.queue| && v.tables.queue[i].status == Active ensures exists g: nat :: Issued(v, i, g) {
      var g: nat :| Issued(w, i, g);
      assert Issued(v, i, g);
    }
    hide Before;
    forall g | 0 <= g < |v.tenures|
      ensures if OwnsLease(v.tables, v.tenures[g].key, v.tenures[g].token)
              then v.tenures[g].end == v.tables.leases[v.tenures[g].key].expiresAt else v.tenures[g].end <= v.clock
    {
      assert v.tenures[g].key == w.tenures[g].key && v.tenures[g].token == w.tenures[g].token;
    }
  }

  lemma DeleteStepKeeps(w: World, x: Release)
    requires Inv(w) && x.leaseId != ""
    ensures Inv(Step(w, DeleteOp(w.clock, x)))
  {
    DeleteStepKeepsLeases(w, x);
    DeleteStepKeepsHistory(w, x);
  }

  lemma CloseStepKeepsLeases(w: World, x: Release)
    requires LeaseInv(w) && ReleasedAreGone(w) && x in w.releasing
    ensures LeaseInv(Step(w, CloseOp(w.clock, x)))
  {
    var v := Step(w, CloseOp(w.clock, x));
    forall key | key in v.tables.leases ensures exists pk: nat :: Backs(v.tables, key, pk) {
      var pk: nat :| Backs(w.tables, key, pk);
      assert Backs(v.tables, key, pk);
    }
    forall i | 0 <= i < |v.tables.queue| && v.tables.queue[i].status == Active ensures Accounted(v, v.tables.queue[i]) {
      assert Accounted(w, w.tables.queue[i]);
    }
  }

  lemma CloseStepKeeps(w: World, x: Release)
    requires Inv(w) && x in w.releasing
    ensures Inv(Step(w, CloseOp(w.clock, x)))
  {
    var v := Step(w, CloseOp(w.clock, x));
    assert forall i :: 0 <= i < |w.tables.queue| ==> Settled(w.tables.queue[i], v.tables.queue[i]);
    SettlingKeepsQueue(w, v);
    SettlingKeepsHistory(w, v);
    CloseStepKeepsLeases(w, x);
    assert GoneIsOver(v) && ReleasedAreGone(v) by {
      assert v.tables.leases == w.tables.leases && v.tenures == w.tenures;
    }
  }

  lemma StepKeeps(w: World, op: Op)
    requires Inv(w) && Enabled(w, op)
    ensures Inv(Step(w, op))
  {
    var v := w.(clock := op.now);
    ClockKeeps(w, op.now);
    hide Inv;
    match op
    case AcquireOp(now, r) =>
      if r.requestToken == "" { JoiningStepKeeps(v, r); } else { PollingStepKeeps(v, r); }
    case CancelOp(now, key, client, requestToken) => CancelStepKeeps(v, key, client, requestToken);
    case DeleteOp(now, x) => DeleteStepKeeps(v, x);
    case CloseOp(now, x) => CloseStepKeeps(v, x);
  }

  lemma {:induction false} RunKeeps(w: World, ops: seq<Op>)
    requires Inv(w) && Legal(w, ops)
    ensures Inv(Run(w, ops))
    decreases |ops|
  {
    if ops != [] {
      hide Inv;
      StepKeeps(w, ops[0]);
      RunKeeps(Step(w, ops[0]), ops[1..]);
    }
  }

  /** A state some legal run from the empty tables ends in. */
  ghost predicate Reachable(w: World) {
    exists ops :: Legal(Start, ops) && Run(Start, ops) == w
  }

  lemma StartIsSound()
    ensures Inv(Start)
  {
  }

  lemma ReachableSound(w: World)
    requires Reachable(w)
    ensures Inv(w)
  {
    var ops :| Legal(Start, ops) && Run(Start, ops) == w;
    StartIsSound();
    hide Inv, Legal, Run;
    RunKeeps(Start, ops);
  }
}
