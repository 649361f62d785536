/** Many workers syncing one catalog row: the acquire, read, fetch and publish statements of
    each interleave with those of the others. */
module BrowserCatalogRuns {
  import opened Wrappers
  import opened BrowserCatalog

  /** Where a call of `sync_resource` stands.  `at` is the number of publications when it read
      the row. */
  datatype Stage =
    | Acquired
    | Fetching(revision: string, payload: Json, at: nat)
    | Ready(revision: string, payload: Json, at: nat, data: Json)
    | Failing
    | Ended(result: Result)

  datatype Worker = Worker(token: string, stage: Stage)

  datatype World = World(row: Snapshot, workers: seq<Worker>, published: seq<Json>)

  datatype Op =
    | Begin(token: string, now: int)
    | Read(worker: nat)
    | Fetch(worker: nat, answer: Option<Json>)
    | PublishOp(worker: nat, at: int)
    | FailOp(worker: nat, error: string)

  /** Tokens are drawn fresh; a worker takes its statements in order. */
  predicate Enabled(w: World, op: Op) {
    match op
    case Begin(token, _) => token != "" && forall i | 0 <= i < |w.workers| :: w.workers[i].token != token
    case Read(i) => i < |w.workers| && w.workers[i].stage.Acquired?
    case Fetch(i, _) => i < |w.workers| && w.workers[i].stage.Fetching?
    case PublishOp(i, _) => i < |w.workers| && w.workers[i].stage.Ready?
    case FailOp(i, _) => i < |w.workers| && w.workers[i].stage.Failing?
  }

  predicate Owns(w: World, i: nat)
    requires i < |w.workers|
  {
    w.row.leaseToken == w.workers[i].token
  }

  function Moved(w: World, i: nat, stage: Stage): seq<Worker>
    requires i < |w.workers|
  {
    w.workers[i := w.workers[i].(stage := stage)]
  }

  function Step(rules: Rules, common: bool, w: World, op: Op): World
    requires Enabled(w, op)
  {
    match op
    case Begin(token, now) =>
      World(Acquire(w.row, token, now),
            w.workers + [Worker(token, if Acquirable(w.row, now) then Acquired else Ended(Busy))], w.published)
    case Read(i) =>
      w.(workers := Moved(w, i, if Owns(w, i) then Fetching(w.row.revision, w.row.payload, |w.published|) else Failing))
    case Fetch(i, answer) =>
      var s := w.workers[i].stage;
      var prepared := if answer.None? then None else Prepared(rules, common, s.payload, answer.value);
      w.(workers := Moved(w, i, if prepared.None? then Failing else Ready(s.revision, s.payload, s.at, prepared.value)))
    case PublishOp(i, at) =>
      var s := w.workers[i].stage;
      World(Publish(rules, w.row, w.workers[i].token, s.revision, s.data, at),
            Moved(w, i, Ended(if !Owns(w, i) then LeaseLost else if rules.digest(s.data) != s.revision then Updated else Unchanged)),
            if Owns(w, i) then w.published + [s.data] else w.published)
    case FailOp(i, error) =>
      World(Fail(w.row, w.workers[i].token, error), Moved(w, i, Ended(Failed)), w.published)
  }

  predicate Legal(rules: Rules, common: bool, w: World, ops: seq<Op>)
    decreases |ops|
  {
    ops == [] || (Enabled(w, ops[0]) && Legal(rules, common, Step(rules, common, w, ops[0]), ops[1..]))
  }

  function Run(rules: Rules, common: bool, w: World, ops: seq<Op>): World
    requires Legal(rules, common, w, ops)
    decreases |ops|
  {
    if ops == [] then w else Run(rules, common, Step(rules, common, w, ops[0]), ops[1..])
  }

  const START := World(NEW_SNAPSHOT, [], [])

  // ------------------------------------------------------------------ the invariant

  predicate Keeps(payload: Json, data: Json) {
    && payload.Object? && data.Object?
    && (forall k :: k in payload.fields ==> k in data.fields)
    && (forall k :: k in data.fields ==> IsCommon(k))
  }

  /** What a worker that still owns the lease read is what the row holds, and nobody has
      published since. */
  predicate WorkerSound(w: World, common: bool, i: nat)
    requires i < |w.workers|
  {
    var s := w.workers[i].stage;
    && w.workers[i].token != ""
    && (s.Fetching? || s.Ready? ==> s.at <= |w.published|)
    && (Owns(w, i) && (s.Fetching? || s.Ready?) ==> s.at == |w.published| && s.payload == w.row.payload && s.revision == w.row.revision)
    && (common && s.Ready? && Owns(w, i) ==> Keeps(s.payload, s.data))
  }

  ghost predicate Inv(rules: Rules, common: bool, w: World) {
    && (forall i, j | 0 <= i < j < |w.workers| :: w.workers[i].token != w.workers[j].token)
    && (forall i | 0 <= i < |w.workers| :: WorkerSound(w, common, i))
    && (w.published == [] ==> w.row.payload == Object(map[]) && w.row.revision == "")
    && (w.published != [] ==> w.row.payload == w.published[|w.published| - 1] && w.row.revision == rules.digest(w.row.payload))
    && (common ==> Keeps(w.row.payload, w.row.payload))
    && (w.row.leaseToken == "" <==> w.row.leaseUntil.None?)
  }

  lemma BeginKeeps(rules: Rules, common: bool, w: World, token: string, now: int)
    requires Inv(rules, common, w) && Enabled(w, Begin(token, now))
    ensures Inv(rules, common, Step(rules, common, w, Begin(token, now)))
  {
    var v := Step(rules, common, w, Begin(token, now));
    forall i | 0 <= i < |v.workers| ensures WorkerSound(v, common, i) {
      if i < |w.workers| {
        assert WorkerSound(w, common, i);
      }
    }
  }

  lemma FetchKeeps(rules: Rules, common: bool, w: World, i: nat, answer: Option<Json>)
    requires Inv(rules, common, w) && Enabled(w, Fetch(i, answer))
    ensures Inv(rules, common, Step(rules, common, w, Fetch(i, answer)))
  {
    var v := Step(rules, common, w, Fetch(i, answer));
    if answer.Some? && common {
      PreparedKeys(rules, w.workers[i].stage.payload, answer.value);
    }
    hide Prepared;
    assert WorkerSound(w, common, i);
    forall j | 0 <= j < |v.workers| ensures WorkerSound(v, common, j) {
      assert WorkerSound(w, common, j);
    }
  }

  lemma PublishKeeps(rules: Rules, common: bool, w: World, i: nat, at: int)
    requires Inv(rules, common, w) && Enabled(w, PublishOp(i, at))
    ensures Inv(rules, common, Step(rules, common, w, PublishOp(i, at)))
  {
    var v := Step(rules, common, w, PublishOp(i, at));
    assert WorkerSound(w, common, i);
    forall j | 0 <= j < |v.workers| ensures WorkerSound(v, common, j) {
      assert WorkerSound(w, common, j);
    }
  }

  lemma StepKeeps(rules: Rules, common: bool, w: World, op: Op)
    requires Inv(rules, common, w) && Enabled(w, op)
    ensures Inv(rules, common, Step(rules, common, w, op))
  {
    match op
    case Begin(token, now) => BeginKeeps(rules, common, w, token, now);
    case Fetch(i, answer) => FetchKeeps(rules, common, w, i, answer);
    case PublishOp(i, at) => PublishKeeps(rules, common, w, i, at);
    case Read(i) =>
      var v := Step(rules, common, w, op);
      forall j | 0 <= j < |v.workers| ensures WorkerSound(v, common, j) {
        assert WorkerSound(w, common, j);
      }
    case FailOp(i, _) =>
      var v := Step(rules, common, w, op);
      forall j | 0 <= j < |v.workers| ensures WorkerSound(v, common, j) {
        assert WorkerSound(w, common, j);
      }
  }

  lemma {:induction false} RunKeeps(rules: Rules, common: bool, w: World, ops: seq<Op>)
    requires Inv(rules, common, w) && Legal(rules, common, w, ops)
    ensures Inv(rules, common, Run(rules, common, w, ops))
    decreases |ops|
  {
    hide Inv;
    if ops != [] {
      StepKeeps(rules, common, w, ops[0]);
      RunKeeps(rules, common, Step(rules, common, w, ops[0]), ops[1..]);
    }
  }

  // ------------------------------------------------------------------ main results

  /** A publication that goes through was fenced: since its worker read the row nobody else
      published, so the merge started from the current catalog; and the row then holds the
      new payload with its digest. */
  lemma PublishIsFenced(rules: Rules, common: bool, ops: seq<Op>, i: nat, at: int)
    requires Legal(rules, common, START, ops)
    ensures var w := Run(rules, common, START, ops);
            Enabled(w, PublishOp(i, at)) && Owns(w, i) ==>
              && w.workers[i].stage.at == |w.published| && w.workers[i].stage.payload == w.row.payload
              && var v := Step(rules, common, w, PublishOp(i, at));
                 v.published == w.published + [w.workers[i].stage.data] && v.row.payload == w.workers[i].stage.data
                 && v.row.revision == rules.digest(v.row.payload)
  {
    RunKeeps(rules, common, START, ops);
    var w := Run(rules, common, START, ops);
    assert i < |w.workers| ==> WorkerSound(w, common, i);
  }

  /** Nothing but a publication by the owner of the lease touches payload or revision: not a
      failure, not a lost lease, not an acquisition. */
  lemma OnlyOwnersPublish(rules: Rules, common: bool, w: World, op: Op)
    requires Enabled(w, op)
    ensures var v := Step(rules, common, w, op);
            v.row.payload != w.row.payload || v.row.revision != w.row.revision || v.published != w.published ==>
              op.PublishOp? && Owns(w, op.worker) && v.workers[op.worker].stage in {Ended(Updated), Ended(Unchanged)}
  {
  }

  /** A revision that is not empty is the digest of the payload. */
  lemma RevisionIsDigest(rules: Rules, common: bool, ops: seq<Op>)
    requires Legal(rules, common, START, ops)
    ensures var row := Run(rules, common, START, ops).row; row.revision != "" ==> row.revision == rules.digest(row.payload)
  {
    RunKeeps(rules, common, START, ops);
  }

  lemma StepKeepsKeys(rules: Rules, w: World, op: Op)
    requires Inv(rules, true, w) && Enabled(w, op)
    ensures Keeps(w.row.payload, Step(rules, true, w, op).row.payload)
    ensures w.published <= Step(rules, true, w, op).published
  {
    OnlyOwnersPublish(rules, true, w, op);
    if op.PublishOp? {
      assert WorkerSound(w, true, op.worker);
    }
  }

  lemma {:induction false} KeysAreKept(rules: Rules, w: World, ops: seq<Op>)
    requires Inv(rules, true, w) && Legal(rules, true, w, ops)
    ensures Keeps(w.row.payload, Run(rules, true, w, ops).row.payload)
    ensures w.published <= Run(rules, true, w, ops).published
    decreases |ops|
  {
    if ops != [] {
      StepKeeps(rules, true, w, ops[0]);
      StepKeepsKeys(rules, w, ops[0]);
      KeysAreKept(rules, Step(rules, true, w, ops[0]), ops[1..]);
    }
  }

  /** The keys of the common catalog never shrink, over any continuation of any run, and
      publications are only added. */
  lemma KeysNeverShrink(rules: Rules, before: seq<Op>, after: seq<Op>)
    requires Legal(rules, true, START, before) && Legal(rules, true, Run(rules, true, START, before), after)
    ensures var w := Run(rules, true, START, before);
            var v := Run(rules, true, w, after);
            && w.row.payload.Object? && v.row.payload.Object?
            && (forall k :: k in w.row.payload.fields ==> k in v.row.payload.fields)
            && w.published <= v.published
  {
    RunKeeps(rules, true, START, before);
    KeysAreKept(rules, Run(rules, true, START, before), after);
  }

  // ------------------------------------------------------------------ who publishes

  predicate HasPublished(x: Worker) {
    x.stage == Ended(Updated) || x.stage == Ended(Unchanged)
  }

  function Publishers(xs: seq<Worker>): nat {
    if xs == [] then 0 else Publishers(xs[..|xs| - 1]) + (if HasPublished(xs[|xs| - 1]) then 1 else 0)
  }

  lemma {:induction false} PublishersAfter(xs: seq<Worker>, i: nat, x: Worker)
    requires i < |xs| && !HasPublished(xs[i])
    ensures Publishers(xs[i := x]) == Publishers(xs) + (if HasPublished(x) then 1 else 0)
  {
    var n := |xs| - 1;
    if i < n {
      PublishersAfter(xs[..n], i, x);
      assert xs[i := x][..n] == xs[..n][i := x];
    } else {
      assert xs[i := x][..n] == xs[..n];
    }
  }

  lemma StepCountsPublishers(rules: Rules, common: bool, w: World, op: Op)
    requires Enabled(w, op) && Publishers(w.workers) == |w.published|
    ensures var v := Step(rules, common, w, op); Publishers(v.workers) == |v.published|
  {
    var v := Step(rules, common, w, op);
    if op.Begin? {
      assert v.workers[..|w.workers|] == w.workers;
    } else {
      PublishersAfter(w.workers, op.worker, v.workers[op.worker]);
    }
  }

  lemma {:induction false} RunCountsPublishers(rules: Rules, common: bool, w: World, ops: seq<Op>)
    requires Legal(rules, common, w, ops) && Publishers(w.workers) == |w.published|
    ensures var v := Run(rules, common, w, ops); Publishers(v.workers) == |v.published|
    decreases |ops|
  {
    hide Step;
    if ops != [] {
      StepCountsPublishers(rules, common, w, ops[0]);
      RunCountsPublishers(rules, common, Step(rules, common, w, ops[0]), ops[1..]);
    }
  }

  /** Over any run there are as many publications as workers that ended updated or unchanged, so
      failures, busy starts and lost leases publish nothing; and payload and revision are those
      of the last publication, unmoved while nobody publishes. */
  lemma OnlyPublicationsShow(rules: Rules, common: bool, before: seq<Op>, after: seq<Op>)
    requires Legal(rules, common, START, before) && Legal(rules, common, Run(rules, common, START, before), after)
    ensures var w := Run(rules, common, START, before);
            var v := Run(rules, common, w, after);
            && Publishers(v.workers) == |v.published|
            && (v.published != [] ==> v.row.payload == v.published[|v.published| - 1] && v.row.revision == rules.digest(v.row.payload))
            && (v.published == w.published ==> v.row.payload == w.row.payload && v.row.revision == w.row.revision)
  {
    var w := Run(rules, common, START, before);
    RunKeeps(rules, common, START, before);
    RunKeeps(rules, common, w, after);
    RunCountsPublishers(rules, common, START, before);
    RunCountsPublishers(rules, common, w, after);
  }
}
