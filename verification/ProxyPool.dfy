/** The proxy pool: targets, pre-generated entries, generation jobs and reservations
    (control/proxy_jobs.py, control/tasks.py, control/views.py, control/panel_operations.py).

    A table is a sequence and a row's primary key is its position, so key order is creation
    order.  A deleted entry keeps its position with state `Discarded`; it no longer exists
    for any query or constraint.  A transaction is a function into `Option<Pool>`: `None`
    is a raised error, which leaves the tables as they were. */
module ProxyPool {
  import opened Wrappers
  import opened Sequences

  /** The unique key of a target: its bundle and location. */
  datatype Scope = Scope(bundle: nat, provider: string, country: string, region: string, city: string)

  datatype Target = Target(
    scope: Scope,
    targetCount: nat,
    replenishBelow: nat,
    active: bool,
    refillPending: bool,
    refillRequestedAt: Option<int>)

  datatype EntryState = Available | Reserved | Discarded

  datatype Entry = Entry(target: nat, fingerprint: string, line: string, state: EntryState, client: Option<nat>)

  datatype JobStatus = Queued | Waiting | Partial | Ready | Failed

  /** `scope` is the location of the job in the bundle of its client. */
  datatype Job = Job(
    client: nat, scope: Scope, requestedCount: nat, candidateCount: nat, readyCount: nat, status: JobStatus)

  /** `entry` is empty for a line taken from the static catalog. */
  datatype Reservation = Reservation(client: nat, job: nat, entry: Option<nat>, fingerprint: string, line: string)

  datatype Pool = Pool(targets: seq<Target>, entries: seq<Entry>, jobs: seq<Job>, reservations: seq<Reservation>)

  /** The fingerprint function and the repair of a legacy line issued for a scope. */
  datatype Env = Env(digest: string -> string, repair: (Scope, string) -> string)

  /** A generated line waiting to be written for a target. */
  datatype Row = Row(target: nat, line: string)

  // ------------------------------------------------------------------ queries

  function Max(a: int, b: int): int {
    if a < b then b else a
  }

  function Min(a: int, b: int): int {
    if a < b then a else b
  }

  predicate Live(e: Entry) {
    e.state != Discarded
  }

  predicate InStock(e: Entry, ts: set<nat>) {
    e.state == Available && e.target in ts
  }

  /** Keys of the available entries of the targets `ts` among the first `n` rows, oldest first. */
  function Stock(es: seq<Entry>, ts: set<nat>, n: nat): seq<nat>
    requires n <= |es|
  {
    if n == 0 then [] else Stock(es, ts, n - 1) + (if InStock(es[n - 1], ts) then [n - 1] else [])
  }

  function AvailableIds(es: seq<Entry>, t: nat): seq<nat> {
    Stock(es, {t}, |es|)
  }

  function AvailableCount(es: seq<Entry>, t: nat): nat {
    |AvailableIds(es, t)|
  }

  /** Active targets with the given scope. */
  function ActiveTargets(targets: seq<Target>, scope: Scope): set<nat> {
    set t: nat | t < |targets| && targets[t].scope == scope && targets[t].active
  }

  /** Keys of the first row with the given scope. */
  function FindTarget(targets: seq<Target>, scope: Scope, n: nat): (found: Option<nat>)
    requires n <= |targets|
    ensures found.None? ==> forall t :: 0 <= t < n ==> targets[t].scope != scope
    ensures found.Some? ==> found.value < n && targets[found.value].scope == scope
  {
    if n == 0 then None
    else if targets[n - 1].scope == scope then Some(n - 1)
    else FindTarget(targets, scope, n - 1)
  }

  function CountFor(rs: seq<Reservation>, job: nat): nat {
    if rs == [] then 0
    else CountFor(rs[..|rs| - 1], job) + (if rs[|rs| - 1].job == job then 1 else 0)
  }

  /** Candidates may exceed profiles; an unset count stands for one. */
  function ReservationTarget(job: Job): nat {
    Max(if job.requestedCount == 0 then 1 else job.requestedCount,
        if job.candidateCount == 0 then 1 else job.candidateCount)
  }

  predicate Unfinished(job: Job, scope: Scope) {
    job.scope == scope && (job.status == Waiting || job.status == Partial)
  }

  /** Waiting and partial jobs of a scope among the first `n`, oldest first. */
  function UnfinishedJobs(jobs: seq<Job>, scope: Scope, n: nat): seq<nat>
    requires n <= |jobs|
  {
    if n == 0 then []
    else UnfinishedJobs(jobs, scope, n - 1) + (if Unfinished(jobs[n - 1], scope) then [n - 1] else [])
  }

  /** Unique constraint on entry fingerprints, leaving row `except` aside. */
  predicate FingerprintUsed(es: seq<Entry>, fingerprint: string, except: nat) {
    exists i: nat | i < |es| :: i != except && Live(es[i]) && es[i].fingerprint == fingerprint
  }

  predicate FingerprintIssued(rs: seq<Reservation>, fingerprint: string) {
    exists i: nat | i < |rs| :: rs[i].fingerprint == fingerprint
  }

  // ------------------------------------------------------------------ writing entries

  function NewEntry(env: Env, row: Row): Entry {
    Entry(row.target, env.digest(row.line), row.line, Available, None)
  }

  /** Insert ignoring conflicts: a row whose fingerprint exists is skipped. */
  function InsertRows(env: Env, es: seq<Entry>, rows: seq<Row>): seq<Entry>
    decreases |rows|
  {
    if rows == [] then es
    else
      var e := NewEntry(env, rows[0]);
      InsertRows(env, if FingerprintUsed(es, e.fingerprint, |es|) then es else es + [e], rows[1..])
  }

  /** Insert under the unique constraint: any conflict raises. */
  function InsertStrictly(env: Env, es: seq<Entry>, rows: seq<Row>): Option<seq<Entry>>
    decreases |rows|
  {
    if rows == [] then Some(es)
    else
      var e := NewEntry(env, rows[0]);
      if FingerprintUsed(es, e.fingerprint, |es|) then None else InsertStrictly(env, es + [e], rows[1..])
  }

  function RowsOf(t: nat, lines: seq<string>): seq<Row> {
    seq(|lines|, i requires 0 <= i < |lines| => Row(t, lines[i]))
  }

  function Discard(es: seq<Entry>, gone: set<nat>): seq<Entry> {
    seq(|es|, i requires 0 <= i < |es| => if i in gone && es[i].state == Available then es[i].(state := Discarded) else es[i])
  }

  // ------------------------------------------------------------------ issuing

  /** Issue one entry to a job: repair its line, mark it, and write the reservation. */
  function IssueOne(env: Env, p: Pool, job: nat, id: nat): Option<Pool>
    requires job < |p.jobs| && id < |p.entries|
  {
    var e := p.entries[id];
    var line := env.repair(p.jobs[job].scope, e.line);
    var fingerprint := if line != e.line then env.digest(line) else e.fingerprint;
    if line != e.line && FingerprintUsed(p.entries, fingerprint, id) then None
    else if FingerprintIssued(p.reservations, fingerprint) then None
    else
      var client := p.jobs[job].client;
      Some(p.(
        entries := p.entries[id := Entry(e.target, fingerprint, line, Reserved, Some(client))],
        reservations := p.reservations + [Reservation(client, job, Some(id), fingerprint, line)]))
  }

  function IssueAll(env: Env, p: Pool, job: nat, ids: seq<nat>): Option<Pool>
    requires job < |p.jobs| && forall i :: 0 <= i < |ids| ==> ids[i] < |p.entries|
    decreases |ids|
  {
    if ids == [] then Some(p)
    else
      match IssueOne(env, p, job, ids[0])
      case None => None
      case Some(q) => IssueAll(env, q, job, ids[1..])
  }

  function Shortage(p: Pool, job: nat): nat
    requires job < |p.jobs|
  {
    Max(0, ReservationTarget(p.jobs[job]) - CountFor(p.reservations, job))
  }

  function OpenStock(p: Pool, scope: Scope): (ids: seq<nat>)
    ensures forall i :: 0 <= i < |ids| ==> ids[i] < |p.entries|
  {
    StockInRange(p.entries, ActiveTargets(p.targets, scope), |p.entries|);
    Stock(p.entries, ActiveTargets(p.targets, scope), |p.entries|)
  }

  lemma {:induction false} StockInRange(es: seq<Entry>, ts: set<nat>, n: nat)
    requires n <= |es|
    ensures forall i :: 0 <= i < |Stock(es, ts, n)| ==> Stock(es, ts, n)[i] < n && InStock(es[Stock(es, ts, n)[i]], ts)
  {
    if n > 0 {
      StockInRange(es, ts, n - 1);
    }
  }

  /** `reserve_pool_proxies`: one transaction that issues the oldest available entries of the
      job's scope, up to what the job still needs. */
  function Reserve(env: Env, p: Pool, job: nat): Option<Pool>
    requires job < |p.jobs|
  {
    IssueAll(env, p, job, Take(OpenStock(p, p.jobs[job].scope), Shortage(p, job)))
  }

  /** `reserve_static_proxies`: issue catalog lines never issued before, at most `limit`. */
  function ReserveStatic(env: Env, rs: seq<Reservation>, client: nat, job: nat, limit: nat, lines: seq<string>): seq<Reservation>
    decreases |lines|
  {
    if lines == [] || limit == 0 then rs
    else
      var fingerprint := env.digest(lines[0]);
      if FingerprintIssued(rs, fingerprint) then ReserveStatic(env, rs, client, job, limit, lines[1..])
      else
        ReserveStatic(env, rs + [Reservation(client, job, None, fingerprint, lines[0])], client, job, limit - 1, lines[1..])
  }

  // ------------------------------------------------------------------ fulfilment

  datatype Outcome = Done(pool: Pool) | Raised(pool: Pool)

  function StatusOf(ready: nat, target: nat): JobStatus {
    if ready >= target then Ready else if ready > 0 then Partial else Waiting
  }

  /** Write back what a job has after a reservation. */
  function Recount(p: Pool, job: nat): Pool
    requires job < |p.jobs|
  {
    var ready := CountFor(p.reservations, job);
    p.(jobs := p.jobs[job := p.jobs[job].(readyCount := ready, status := StatusOf(ready, ReservationTarget(p.jobs[job])))])
  }

  lemma {:induction false} IssueAllFrame(env: Env, p: Pool, job: nat, ids: seq<nat>)
    requires job < |p.jobs| && forall i :: 0 <= i < |ids| ==> ids[i] < |p.entries|
    ensures var q := IssueAll(env, p, job, ids);
            q.Some? ==> q.value.jobs == p.jobs && q.value.targets == p.targets && |q.value.entries| == |p.entries|
    decreases |ids|
  {
    if ids != [] && IssueOne(env, p, job, ids[0]).Some? {
      IssueAllFrame(env, IssueOne(env, p, job, ids[0]).value, job, ids[1..]);
    }
  }

  function Serve(env: Env, p: Pool, job: nat): Option<Pool>
    requires job < |p.jobs|
  {
    IssueAllFrame(env, p, job, Take(OpenStock(p, p.jobs[job].scope), Shortage(p, job)));
    match Reserve(env, p, job)
    case None => None
    case Some(q) => Some(Recount(q, job))
  }

  /** The loop of `fulfill_waiting_jobs`: it stops once target `t` has nothing left. */
  function ServeAll(env: Env, p: Pool, t: nat, jobs: seq<nat>): Outcome
    requires forall i :: 0 <= i < |jobs| ==> jobs[i] < |p.jobs|
    decreases |jobs|
  {
    if jobs == [] then Done(p)
    else
      IssueAllFrame(env, p, jobs[0], Take(OpenStock(p, p.jobs[jobs[0]].scope), Shortage(p, jobs[0])));
      match Serve(env, p, jobs[0])
      case None => Raised(p)
      case Some(q) => if AvailableCount(q.entries, t) == 0 then Done(q) else ServeAll(env, q, t, jobs[1..])
  }

  lemma {:induction false} UnfinishedInRange(jobs: seq<Job>, scope: Scope, n: nat)
    requires n <= |jobs|
    ensures forall i :: 0 <= i < |UnfinishedJobs(jobs, scope, n)| ==>
              UnfinishedJobs(jobs, scope, n)[i] < n && Unfinished(jobs[UnfinishedJobs(jobs, scope, n)[i]], scope)
  {
    if n > 0 {
      UnfinishedInRange(jobs, scope, n - 1);
    }
  }

  /** `fulfill_waiting_jobs(target)`. */
  function Fulfill(env: Env, p: Pool, t: nat): Outcome
    requires t < |p.targets|
  {
    UnfinishedInRange(p.jobs, p.targets[t].scope, |p.jobs|);
    ServeAll(env, p, t, UnfinishedJobs(p.jobs, p.targets[t].scope, |p.jobs|))
  }

  // ------------------------------------------------------------------ refilling

  function FailedJob(job: Job, scope: Scope): Job {
    if Unfinished(job, scope) then job.(status := if job.readyCount == 0 then Failed else Partial) else job
  }

  /** `_mark_target_jobs_failed`. */
  function MarkFailed(p: Pool, t: nat): Pool
    requires t < |p.targets|
  {
    p.(jobs := seq(|p.jobs|, i requires 0 <= i < |p.jobs| => FailedJob(p.jobs[i], p.targets[t].scope)))
  }

  function ClearClaim(targets: seq<Target>, t: nat): seq<Target>
    requires t < |targets|
  {
    targets[t := targets[t].(refillPending := false, refillRequestedAt := None)]
  }

  function Needed(p: Pool, t: nat): nat
    requires t < |p.targets|
  {
    Max(0, p.targets[t].targetCount - AvailableCount(p.entries, t))
  }

  /** The lines a generator hands out; `None` stands for missing credentials. */
  predicate Supplies(supply: Option<seq<string>>, needed: nat) {
    supply.Some? ==> needed <= |supply.value|
  }

  /** First transaction of `refill_proxy_pool`: top the target up to its target count. */
  function TopUp(env: Env, p: Pool, t: nat, supply: Option<seq<string>>): Option<Pool>
    requires t < |p.targets| && Supplies(supply, Needed(p, t))
  {
    if Needed(p, t) == 0 then Some(p)
    else if supply.None? then None
    else Some(p.(entries := InsertRows(env, p.entries, RowsOf(t, supply.value[..Needed(p, t)]))))
  }

  /** `refill_proxy_pool(t)`. */
  function Refill(env: Env, p: Pool, t: nat, supply: Option<seq<string>>): Outcome
    requires t < |p.targets| ==> Supplies(supply, Needed(p, t))
  {
    if t >= |p.targets| then Done(p)
    else if !p.targets[t].active then Done(p.(targets := ClearClaim(p.targets, t)))
    else
      match TopUp(env, p, t, supply)
      case None => var q := MarkFailed(p, t); Raised(q.(targets := ClearClaim(q.targets, t)))
      case Some(q) =>
        FulfillFrame(env, q, t);
        match Fulfill(env, q, t)
        case Done(r) => Done(r.(targets := ClearClaim(r.targets, t)))
        case Raised(r) => var f := MarkFailed(r, t); Raised(f.(targets := ClearClaim(f.targets, t)))
  }

  lemma {:induction false} ServeAllFrame(env: Env, p: Pool, t: nat, jobs: seq<nat>)
    requires forall i :: 0 <= i < |jobs| ==> jobs[i] < |p.jobs|
    ensures var q := ServeAll(env, p, t, jobs).pool;
            q.targets == p.targets && |q.entries| == |p.entries| && |q.jobs| == |p.jobs|
    decreases |jobs|
  {
    if jobs != [] {
      IssueAllFrame(env, p, jobs[0], Take(OpenStock(p, p.jobs[jobs[0]].scope), Shortage(p, jobs[0])));
      match Serve(env, p, jobs[0])
      case None =>
      case Some(q) => ServeAllFrame(env, q, t, jobs[1..]);
    }
  }

  lemma FulfillFrame(env: Env, p: Pool, t: nat)
    requires t < |p.targets|
    ensures var q := Fulfill(env, p, t).pool;
            q.targets == p.targets && |q.entries| == |p.entries| && |q.jobs| == |p.jobs|
  {
    UnfinishedInRange(p.jobs, p.targets[t].scope, |p.jobs|);
    ServeAllFrame(env, p, t, UnfinishedJobs(p.jobs, p.targets[t].scope, |p.jobs|));
  }

  /** A target another refill owns: claimed, and not longer ago than the stale limit. */
  predicate Owned(target: Target, staleBefore: int) {
    target.refillPending && target.refillRequestedAt.Some? && target.refillRequestedAt.value > staleBefore
  }

  predicate Claimable(target: Target, staleBefore: int) {
    target.active &&
    (!target.refillPending || target.refillRequestedAt.None? || target.refillRequestedAt.value <= staleBefore)
  }

  /** The claim of `queue_refill_proxy_pool`; `delivered` is false when the broker is down. */
  function QueueRefill(targets: seq<Target>, t: nat, now: int, staleBefore: int, delivered: bool): (seq<Target>, bool) {
    if t < |targets| && Claimable(targets[t], staleBefore) then
      if delivered then (targets[t := targets[t].(refillPending := true, refillRequestedAt := Some(now))], true)
      else (ClearClaim(targets, t), false)
    else (targets, false)
  }

  // ------------------------------------------------------------------ job creation

  function DefaultTarget(scope: Scope): Target {
    if scope.city != "" then Target(scope, 40, 8, true, false, None)
    else if scope.region != "" then Target(scope, 50, 10, true, false, None)
    else Target(scope, 1000, 200, true, false, None)
  }

  predicate Dynamic(provider: string) {
    provider == "P1" || provider == "P2" || provider == "P3"
  }

  predicate Rotates(provider: string) {
    provider == "P1" || provider == "P3"
  }

  function WithTarget(targets: seq<Target>, fallback: Target): seq<Target> {
    if FindTarget(targets, fallback.scope, |targets|).None? then targets + [fallback] else targets
  }

  /** `_ensure_dynamic_inventory`. */
  function EnsureInventory(env: Env, p0: Pool, scope: Scope, minimum: nat, rotate: bool, supply: Option<seq<string>>): Option<Pool>
  {
    var p := p0.(targets := WithTarget(p0.targets, DefaultTarget(scope)));
    var t := FindTarget(p.targets, scope, |p.targets|).value;
    if !p.targets[t].active then None
    else
      var es := if rotate && Rotates(scope.provider) then Discard(p.entries, set i | i in AvailableIds(p.entries, t)) else p.entries;
      var needed := Max(0, Max(1, minimum) - AvailableCount(es, t));
      if needed == 0 then Some(p.(entries := es))
      else if supply.None? || |supply.value| < needed then None
      else
        match InsertStrictly(env, es, RowsOf(t, supply.value[..needed]))
        case None => None
        case Some(inserted) => Some(p.(entries := inserted))
  }

  /** A validated request for proxies. */
  datatype JobRequest = JobRequest(
    client: nat, scope: Scope, requestedCount: nat, candidateCount: nat, freshPool: bool)

  /** The validation keeps `1 <= requested <= candidate <= 100`. */
  predicate ValidRequest(r: JobRequest) {
    1 <= r.requestedCount <= r.candidateCount <= 100
  }

  function CreatedJob(r: JobRequest): Job {
    Job(r.client, r.scope, r.requestedCount, r.candidateCount, 0, Queued)
  }

  function FinalStatus(ready: nat, candidates: nat, autoGenerate: bool): JobStatus {
    if ready >= candidates then Ready
    else if ready > 0 then Partial
    else if autoGenerate then Waiting
    else Failed
  }

  /** Reserve for a new job and write its counters; `catalog` holds the static lines. */
  function FillJob(env: Env, p: Pool, job: nat, catalog: seq<string>, autoGenerate: bool): Option<Pool>
    requires job < |p.jobs|
  {
    IssueAllFrame(env, p, job, Take(OpenStock(p, p.jobs[job].scope), Shortage(p, job)));
    match Reserve(env, p, job)
    case None => None
    case Some(q) =>
      var j := q.jobs[job];
      var got := |q.reservations| - |p.reservations|;
      var rs :=
        if got < j.candidateCount && j.scope.region == "" && j.scope.city == ""
        then ReserveStatic(env, q.reservations, j.client, job, Shortage(q, job), catalog)
        else q.reservations;
      var ready := Max(0, |rs| - |p.reservations|);
      Some(q.(reservations := rs,
              jobs := q.jobs[job := j.(readyCount := ready, status := FinalStatus(ready, j.candidateCount, autoGenerate))]))
  }

  /** The rest of the transaction once the inventory is ensured.  `brokered` says whether a
      refill may be queued for a short job, which then makes sure that its target exists. */
  function CreateOn(env: Env, p: Pool, r: JobRequest, catalog: seq<string>, autoGenerate: bool, brokered: bool): Option<Pool> {
    match FillJob(env, p.(jobs := p.jobs + [CreatedJob(r)]), |p.jobs|, catalog, autoGenerate)
    case None => None
    case Some(s) =>
      if autoGenerate && brokered && |s.jobs| > |p.jobs| && s.jobs[|p.jobs|].readyCount < r.candidateCount
      then Some(s.(targets := WithTarget(s.targets, Target(r.scope, 1000, 200, true, false, None))))
      else Some(s)
  }

  /** The transaction of `create_proxy_job`. */
  function CreateJob(env: Env, p: Pool, r: JobRequest, supply: Option<seq<string>>, catalog: seq<string>,
                     autoGenerate: bool, brokered: bool): Option<Pool>
  {
    if Dynamic(r.scope.provider) then
      match EnsureInventory(env, p, r.scope, r.candidateCount, r.freshPool, supply)
      case None => None
      case Some(q) => CreateOn(env, q, r, catalog, autoGenerate, brokered)
    else CreateOn(env, p, r, catalog, autoGenerate, brokered)
  }

  // ------------------------------------------------------------------ panel steps

  /** `remove_available`: drop the stock of the listed targets and switch them off. */
  function RemoveAvailable(p: Pool, ts: seq<nat>): Pool
    requires forall i :: 0 <= i < |ts| ==> ts[i] < |p.targets|
    decreases |ts|
  {
    if ts == [] then p
    else
      var t := ts[0];
      RemoveAvailable(p.(
        entries := Discard(p.entries, set i | i in AvailableIds(p.entries, t)),
        targets := p.targets[t := p.targets[t].(active := false, refillPending := false)]), ts[1..])
  }

  /** The newest available entries beyond `count`. */
  function Excess(es: seq<Entry>, t: nat, count: nat): set<nat> {
    if AvailableCount(es, t) <= count then {} else set i | i in AvailableIds(es, t)[count..]
  }

  /** `resize`: trim the stock of each listed target, set its levels, and claim a refill for
      a target left below its threshold. */
  function Resize(p: Pool, ts: seq<nat>, count: nat, threshold: nat, now: int, staleBefore: int, delivered: bool): Pool
    requires forall i :: 0 <= i < |ts| ==> ts[i] < |p.targets|
    decreases |ts|
  {
    if ts == [] then p
    else
      var t := ts[0];
      var es := Discard(p.entries, Excess(p.entries, t, count));
      var resized := p.targets[t := p.targets[t].(targetCount := count, replenishBelow := threshold, active := true)];
      var targets := if AvailableCount(es, t) < threshold then QueueRefill(resized, t, now, staleBefore, delivered).0 else resized;
      Resize(p.(entries := es, targets := targets), ts[1..], count, threshold, now, staleBefore, delivered)
  }
}
