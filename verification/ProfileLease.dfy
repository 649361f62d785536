/** The profile-create lease and its FIFO wait queue (control/views.py).

    `Tables` holds the two database tables.  Every request is a function on them, and
    `LeaseDesk` performs the same request step by step on mutable tables.  A `World` adds
    the clock, the history of grants and the releases that are between their two
    statements, so that a run is a sequence of requests of many clients. */
module ProfileLease {
  import opened Wrappers

  const LEASE_SECONDS: int := 300
  const QUEUE_SECONDS: int := 43200

  datatype Status = Queued | Active | Completed | Expired

  /** A row of the wait queue.  Its primary key is its position in the table. */
  datatype QueueRow = QueueRow(
    scopeKey: string,
    requestToken: string,
    leaseToken: string,
    client: nat,
    groupId: string,
    requestedCount: nat,
    status: Status,
    expiresAt: int,
    createdAt: int)

  datatype Lease = Lease(ownerToken: string, client: nat, groupId: string, requestedCount: nat, expiresAt: int)

  /** `lease_key` is unique, so the lease table is a map. */
  datatype Tables = Tables(leases: map<string, Lease>, queue: seq<QueueRow>)

  datatype Response =
    | Granted(leaseId: string)
    | Waiting(requestToken: string, position: nat)
    | Gone

  /** What one authenticated acquire request carries, with the random tokens it would draw. */
  datatype Request = Request(
    key: string,
    client: nat,
    groupId: string,
    requestedCount: nat,
    requestToken: string,
    newRequestToken: string,
    newOwnerToken: string)

  // ------------------------------------------------------------------ queries

  predicate IsWaiting(row: QueueRow, key: string, now: int) {
    row.scopeKey == key && row.status == Queued && row.expiresAt > now
  }

  /** Queue order: `(created_at, pk)`. */
  predicate Before(q: seq<QueueRow>, i: nat, j: nat)
    requires i < |q| && j < |q|
  {
    q[i].createdAt < q[j].createdAt || (q[i].createdAt == q[j].createdAt && i < j)
  }

  /** The first waiting row of `key` among the first `n` rows, in queue order. */
  function Head(q: seq<QueueRow>, key: string, now: int, n: nat): (head: Option<nat>)
    requires n <= |q|
    ensures head.None? ==> forall i :: 0 <= i < n ==> !IsWaiting(q[i], key, now)
    ensures head.Some? ==> head.value < n && IsWaiting(q[head.value], key, now)
    ensures head.Some? ==>
              forall i :: 0 <= i < n && IsWaiting(q[i], key, now) && i != head.value ==> Before(q, head.value, i)
  {
    if n == 0 then None
    else
      var head := Head(q, key, now, n - 1);
      if IsWaiting(q[n - 1], key, now) && (head.None? || Before(q, n - 1, head.value)) then Some(n - 1) else head
  }

  /** Waiting rows of `key` created strictly earlier than `at`. */
  function Earlier(q: seq<QueueRow>, key: string, now: int, at: int): set<nat> {
    set i: nat | i < |q| && IsWaiting(q[i], key, now) && q[i].createdAt < at
  }

  predicate Carries(row: QueueRow, key: string, client: nat, requestToken: string) {
    row.requestToken == requestToken && row.scopeKey == key && row.client == client
  }

  function FindRequest(q: seq<QueueRow>, key: string, client: nat, requestToken: string, n: nat): (found: Option<nat>)
    requires n <= |q|
    ensures found.None? ==> forall i :: 0 <= i < n ==> !Carries(q[i], key, client, requestToken)
    ensures found.Some? ==> found.value < n && Carries(q[found.value], key, client, requestToken)
  {
    if n == 0 then None
    else if Carries(q[n - 1], key, client, requestToken) then Some(n - 1)
    else FindRequest(q, key, client, requestToken, n - 1)
  }

  // ------------------------------------------------------------------ updates

  function ExpireStaleRow(row: QueueRow, key: string, now: int): QueueRow {
    if row.scopeKey == key && row.status == Queued && row.expiresAt <= now then row.(status := Expired) else row
  }

  function ExpireStale(q: seq<QueueRow>, key: string, now: int): seq<QueueRow> {
    seq(|q|, i requires 0 <= i < |q| => ExpireStaleRow(q[i], key, now))
  }

  function SupersedeRow(row: QueueRow, key: string, client: nat, now: int): QueueRow {
    if row.scopeKey == key && row.client == client && row.status == Queued
    then row.(status := Expired, expiresAt := now) else row
  }

  /** A client's own queued requests for the key give way to its new one. */
  function Supersede(q: seq<QueueRow>, key: string, client: nat, now: int): seq<QueueRow> {
    seq(|q|, i requires 0 <= i < |q| => SupersedeRow(q[i], key, client, now))
  }

  function NewRow(r: Request, now: int): QueueRow {
    QueueRow(r.key, r.newRequestToken, "", r.client, r.groupId, r.requestedCount, Queued, now + QUEUE_SECONDS, now)
  }

  predicate OwnsLease(t: Tables, key: string, token: string) {
    key in t.leases && t.leases[key].ownerToken == token
  }

  /** A poll by a request whose lease ran out closes the request. */
  function DropPolled(t: Tables, key: string, pk: nat, now: int): Tables
    requires pk < |t.queue|
  {
    var row := t.queue[pk];
    Tables(
      if OwnsLease(t, key, row.leaseToken) then t.leases - {key} else t.leases,
      t.queue[pk := row.(status := Expired, leaseToken := "", expiresAt := now)])
  }

  function ReapRow(row: QueueRow, key: string, token: string, now: int): QueueRow {
    if row.scopeKey == key && row.status == Active && row.leaseToken == token
    then row.(status := Expired, leaseToken := "", expiresAt := now) else row
  }

  function CloseHolder(q: seq<QueueRow>, key: string, token: string, now: int): seq<QueueRow> {
    seq(|q|, i requires 0 <= i < |q| => ReapRow(q[i], key, token, now))
  }

  /** An expired lease leaves together with the queue row that holds it. */
  function Reap(t: Tables, key: string, now: int): Tables {
    if key in t.leases && t.leases[key].expiresAt <= now
    then Tables(t.leases - {key}, CloseHolder(t.queue, key, t.leases[key].ownerToken, now))
    else t
  }

  function Grant(t: Tables, r: Request, pk: nat, now: int): Tables
    requires pk < |t.queue|
  {
    Tables(
      t.leases[r.key := Lease(r.newOwnerToken, r.client, r.groupId, t.queue[pk].requestedCount, now + LEASE_SECONDS)],
      t.queue[pk := t.queue[pk].(status := Active, leaseToken := r.newOwnerToken, expiresAt := now + LEASE_SECONDS)])
  }

  function Position(q: seq<QueueRow>, key: string, now: int, pk: nat): nat
    requires pk < |q|
  {
    var head := Head(q, key, now, |q|);
    if head.Some? && head.value != pk then 1 + |Earlier(q, key, now, q[pk].createdAt)| else 1
  }

  // ------------------------------------------------------------------ requests

  predicate MayEnter(t: Tables, key: string, pk: nat, now: int) {
    key !in t.leases && Head(t.queue, key, now, |t.queue|) == Some(pk)
  }

  /** The second half of an acquire: `pk` is the caller's own row. */
  function Contend(t0: Tables, r: Request, pk: nat, now: int): (Tables, Response)
    requires pk < |t0.queue|
  {
    var t := Reap(t0, r.key, now);
    if MayEnter(t, r.key, pk, now) then (Grant(t, r, pk, now), Granted(r.newOwnerToken))
    else (t, Waiting(t.queue[pk].requestToken, Position(t.queue, r.key, now, pk)))
  }

  function Poll(t: Tables, r: Request, pk: nat, now: int): (Tables, Response)
    requires pk < |t.queue|
  {
    var row := t.queue[pk];
    if row.status == Completed || row.status == Expired then (t, Gone)
    else if row.status == Active && row.leaseToken != "" then
      if OwnsLease(t, r.key, row.leaseToken) && t.leases[r.key].expiresAt > now
      then (t, Granted(row.leaseToken))
      else (DropPolled(t, r.key, pk, now), Gone)
    else Contend(t, r, pk, now)
  }

  function Acquire(t0: Tables, r: Request, now: int): (Tables, Response) {
    var t := t0.(queue := ExpireStale(t0.queue, r.key, now));
    if r.requestToken != "" then
      match FindRequest(t.queue, r.key, r.client, r.requestToken, |t.queue|)
      case None => (t, Gone)
      case Some(pk) => Poll(t, r, pk, now)
    else
      Contend(t.(queue := Supersede(t.queue, r.key, r.client, now) + [NewRow(r, now)]), r, |t.queue|, now)
  }

  function CancelRow(row: QueueRow, key: string, client: nat, requestToken: string, now: int): QueueRow {
    if Carries(row, key, client, requestToken) && row.status == Queued
    then row.(status := Expired, expiresAt := now) else row
  }

  function Cancel(q: seq<QueueRow>, key: string, client: nat, requestToken: string, now: int): seq<QueueRow> {
    seq(|q|, i requires 0 <= i < |q| => CancelRow(q[i], key, client, requestToken, now))
  }

  predicate HoldsLease(t: Tables, key: string, client: nat, leaseId: string) {
    OwnsLease(t, key, leaseId) && t.leases[key].client == client
  }

  /** First statement of a release. */
  function DeleteLease(t: Tables, key: string, client: nat, leaseId: string): Tables {
    if HoldsLease(t, key, client, leaseId) then t.(leases := t.leases - {key}) else t
  }

  function CloseRow(row: QueueRow, key: string, client: nat, leaseId: string): QueueRow {
    if row.scopeKey == key && row.leaseToken == leaseId && row.client == client
    then row.(status := Completed, leaseToken := "") else row
  }

  /** Second statement of a release. */
  function CloseReleased(q: seq<QueueRow>, key: string, client: nat, leaseId: string): seq<QueueRow> {
    seq(|q|, i requires 0 <= i < |q| => CloseRow(q[i], key, client, leaseId))
  }

  // ------------------------------------------------------------------ the mutable tables

  /** The two tables as the request handlers change them. */
  class LeaseDesk {
    var leases: map<string, Lease>
    var queue: seq<QueueRow>

    constructor ()
      ensures View() == Tables(map[], [])
    {
      leases, queue := map[], [];
    }

    function View(): Tables
      reads this
    {
      Tables(leases, queue)
    }

    method AcquireLease(r: Request, now: int) returns (response: Response)
      modifies this
      ensures (View(), response) == Acquire(old(View()), r, now)
    {
      queue := ExpireStale(queue, r.key, now);
      var pk := |queue|;
      if r.requestToken != "" {
        var found := FindRequest(queue, r.key, r.client, r.requestToken, |queue|);
        if found.None? {
          return Gone;
        }
        pk := found.value;
        var row := queue[pk];
        if row.status == Completed || row.status == Expired {
          return Gone;
        }
        if row.status == Active && row.leaseToken != "" {
          var owned := r.key in leases && leases[r.key].ownerToken == row.leaseToken;
          if owned && leases[r.key].expiresAt > now {
            return Granted(leases[r.key].ownerToken);
          }
          if owned {
            leases := leases - {r.key};
          }
          row := row.(status := Expired);
          row := row.(leaseToken := "");
          row := row.(expiresAt := now);
          queue := queue[pk := row];
          return Gone;
        }
      } else {
        queue := Supersede(queue, r.key, r.client, now);
        queue := queue + [NewRow(r, now)];
      }
      response := ContendForLease(r, pk, now);
    }

    method ContendForLease(r: Request, pk: nat, now: int) returns (response: Response)
      requires pk < |queue|
      modifies this
      ensures (View(), response) == Contend(old(View()), r, pk, now)
    {
      if r.key in leases && leases[r.key].expiresAt <= now {
        queue := CloseHolder(queue, r.key, leases[r.key].ownerToken, now);
        leases := leases - {r.key};
      }
      var head := Head(queue, r.key, now, |queue|);
      if r.key in leases || head.None? || head.value != pk {
        var position := 1;
        if head.Some? && head.value != pk {
          position := 1 + |Earlier(queue, r.key, now, queue[pk].createdAt)|;
        }
        return Waiting(queue[pk].requestToken, position);
      }
      var row := queue[pk];
      var lease := Lease(r.newOwnerToken, r.client, r.groupId, row.requestedCount, now + LEASE_SECONDS);
      leases := leases[r.key := lease];
      row := row.(status := Active);
      row := row.(leaseToken := r.newOwnerToken);
      row := row.(expiresAt := now + LEASE_SECONDS);
      queue := queue[pk := row];
      response := Granted(lease.ownerToken);
    }

    /** The update of a cancellation, row by row; the answer says whether it found a row. */
    method CancelRequest(key: string, client: nat, requestToken: string, now: int) returns (cancelled: bool)
      modifies this
      ensures leases == old(leases) && |queue| == |old(queue)|
      ensures forall i | 0 <= i < |queue| ::
                queue[i] ==
                  if Carries(old(queue)[i], key, client, requestToken) && old(queue)[i].status == Queued
                  then old(queue)[i].(status := Expired, expiresAt := now) else old(queue)[i]
      ensures cancelled <==> exists i :: 0 <= i < |old(queue)| && Carries(old(queue)[i], key, client, requestToken) && old(queue)[i].status == Queued
      ensures queue == Cancel(old(queue), key, client, requestToken, now)
    {
      cancelled := false;
      var i := 0;
      while i < |queue|
        invariant leases == old(leases) && 0 <= i <= |queue| == |old(queue)|
        invariant forall k | 0 <= k < i :: queue[k] == CancelRow(old(queue)[k], key, client, requestToken, now)
        invariant forall k | i <= k < |queue| :: queue[k] == old(queue)[k]
        invariant cancelled <==> exists k :: 0 <= k < i && Carries(old(queue)[k], key, client, requestToken) && old(queue)[k].status == Queued
      {
        var row := queue[i];
        if row.scopeKey == key && row.requestToken == requestToken && row.client == client && row.status == Queued {
          row := row.(status := Expired);
          row := row.(expiresAt := now);
          queue := queue[i := row];
          cancelled := true;
        }
        i := i + 1;
      }
    }

    method ReleaseLease(key: string, client: nat, leaseId: string) returns (deleted: bool)
      modifies this
      ensures deleted <==> key in old(leases) && old(leases)[key].ownerToken == leaseId && old(leases)[key].client == client
      ensures queue == old(queue) && leases == if deleted then old(leases) - {key} else old(leases)
      ensures View() == DeleteLease(old(View()), key, client, leaseId)
      ensures deleted == HoldsLease(old(View()), key, client, leaseId)
    {
      deleted := key in leases && leases[key].ownerToken == leaseId && leases[key].client == client;
      if deleted {
        leases := leases - {key};
      }
    }

    /** The update of the second statement, row by row. */
    method CloseQueue(key: string, client: nat, leaseId: string)
      modifies this
      ensures leases == old(leases) && |queue| == |old(queue)|
      ensures forall i | 0 <= i < |queue| ::
                queue[i] ==
                  if old(queue)[i].scopeKey == key && old(queue)[i].leaseToken == leaseId && old(queue)[i].client == client
                  then old(queue)[i].(status := Completed, leaseToken := "") else old(queue)[i]
      ensures queue == CloseReleased(old(queue), key, client, leaseId)
    {
      var i := 0;
      while i < |queue|
        invariant leases == old(leases) && 0 <= i <= |queue| == |old(queue)|
        invariant forall k | 0 <= k < i :: queue[k] == CloseRow(old(queue)[k], key, client, leaseId)
        invariant forall k | i <= k < |queue| :: queue[k] == old(queue)[k]
      {
        var row := queue[i];
        if row.scopeKey == key && row.leaseToken == leaseId && row.client == client {
          row := row.(status := Completed);
          row := row.(leaseToken := "");
          queue := queue[i := row];
        }
        i := i + 1;
      }
    }
  }
}
