/** What single steps on the pool leave, row by row, from the tables before them: top-ups,
    refills that end or raise, claims, and the panel's removal and resizing. */
module ProxyPoolEffects {
  import opened Wrappers
  import opened Sequences
  import opened ProxyPool
  import opened ProxyPoolFacts
  import opened ProxyPoolFulfillment
  import opened ProxyPoolJobs
  import opened ProxyPoolStock
  import opened ProxyPoolCreation

  // ------------------------------------------------------------------ topping up

  function LiveDigests(es: seq<Entry>): set<string> {
    set e | e in es && e.state != Discarded :: e.fingerprint
  }

  function Lines(rows: seq<Row>): seq<string> {
    seq(|rows|, i requires 0 <= i < |rows| => rows[i].line)
  }

  function Written(env: Env, rows: seq<Row>, picks: seq<nat>): seq<Entry>
    requires forall k | 0 <= k < |picks| :: picks[k] < |rows|
  {
    seq(|picks|, k requires 0 <= k < |picks| => Entry(rows[picks[k]].target, env.digest(rows[picks[k]].line), rows[picks[k]].line, Available, None))
  }

  lemma LiveDigestsGrow(es: seq<Entry>, e: Entry, fingerprint: string)
    requires e.state != Discarded
    ensures LiveDigests(es + [e]) == LiveDigests(es) + {e.fingerprint}
    ensures FingerprintUsed(es, fingerprint, |es|) <==> fingerprint in LiveDigests(es)
  {
    assert forall x :: x in es + [e] <==> x in es || x == e;
    if fingerprint in LiveDigests(es) {
      var x :| x in es && x.state != Discarded && x.fingerprint == fingerprint;
      var i :| 0 <= i < |es| && es[i] == x;
    }
  }

  lemma InsertOneMore(env: Env, es: seq<Entry>, rows: seq<Row>, from: nat)
    requires from < |rows|
    ensures var e := NewEntry(env, rows[from]);
            && InsertRows(env, es, rows[from..]) == InsertRows(env, if e.fingerprint in LiveDigests(es) then es else es + [e], rows[from + 1..])
            && LiveDigests(es + [e]) == LiveDigests(es) + {e.fingerprint}
  {
    var e := NewEntry(env, rows[from]);
    assert rows[from..][0] == rows[from] && rows[from..][1..] == rows[from + 1..];
    LiveDigestsGrow(es, e, e.fingerprint);
    hide LiveDigests, FingerprintUsed;
  }

  lemma WrittenNext(env: Env, rows: seq<Row>, from: nat, rest: seq<nat>)
    requires from < |rows| && forall k | 0 <= k < |rest| :: rest[k] < |rows|
    ensures (forall k | 0 <= k < |[from] + rest| :: ([from] + rest)[k] < |rows|)
    ensures Written(env, rows, [from] + rest) == [NewEntry(env, rows[from])] + Written(env, rows, rest)
  {
  }

  lemma AppendAssociates(es: seq<Entry>, e: Entry, rest: seq<Entry>)
    ensures (es + [e]) + rest == es + ([e] + rest)
  {
  }

  lemma {:induction false} InsertGives(env: Env, es: seq<Entry>, rows: seq<Row>, from: nat, lines: seq<string>,
                                       seen: set<string>, picks: seq<nat>)
    requires from <= |rows| && |lines| == |rows| && forall i | 0 <= i < |rows| :: lines[i] == rows[i].line
    requires seen == LiveDigests(es) && picks == FreshFrom(env, seen, lines, from)
    requires forall k | 0 <= k < |picks| :: picks[k] < |rows|
    ensures InsertRows(env, es, rows[from..]) == es + Written(env, rows, picks)
    decreases |rows| - from
  {
    if from < |rows| {
      var e := NewEntry(env, rows[from]);
      InsertOneMore(env, es, rows, from);
      FreshNext(env, seen, lines, from);
      hide InsertRows, LiveDigests, FreshFrom, Written;
      assert e.fingerprint == env.digest(lines[from]);
      if e.fingerprint in seen {
        InsertGives(env, es, rows, from + 1, lines, seen, picks);
      } else {
        var rest := FreshFrom(env, seen + {e.fingerprint}, lines, from + 1);
        WrittenNext(env, rows, from, rest);
        InsertGives(env, es + [e], rows, from + 1, lines, seen + {e.fingerprint}, rest);
        AppendAssociates(es, e, Written(env, rows, rest));
      }
    } else {
      assert rows[from..] == [] && picks == [];
    }
  }

  /** An insert that skips conflicts writes exactly the rows whose digest is neither that of a
      live entry nor of an earlier row, in order. */
  ghost predicate Inserts(env: Env, es: seq<Entry>, rows: seq<Row>, picks: seq<nat>, fs: seq<Entry>) {
    && (forall k | 0 <= k < |picks| :: picks[k] < |rows|)
    && Enumerates(picks, FreshLines(env, LiveDigests(es), Lines(rows)))
    && fs == es + Written(env, rows, picks)
  }

  lemma InsertsExactly(env: Env, es: seq<Entry>, rows: seq<Row>)
    ensures exists picks :: Inserts(env, es, rows, picks, InsertRows(env, es, rows))
  {
    var lines, seen := Lines(rows), LiveDigests(es);
    var picks := FreshFrom(env, seen, lines, 0);
    assert rows[0..] == rows && |lines| == |rows|;
    FreshAreEnumerated(env, seen, lines);
    hide InsertRows, LiveDigests, FreshFrom, FreshLines, Written;
    InsertGives(env, es, rows, 0, lines, seen, picks);
    assert Inserts(env, es, rows, picks, InsertRows(env, es, rows));
  }

  /** A top-up writes as many generated lines as the target lacks, but for conflicts; without a
      generator it raises, unless the target lacks nothing. */
  lemma TopUpWrites(env: Env, p: Pool, t: nat, supply: Option<seq<string>>)
    requires t < |p.targets| && Supplies(supply, Needed(p, t))
    ensures var u, n := TopUp(env, p, t, supply), p.targets[t].targetCount - AvailableCount(p.entries, t);
            if n <= 0 then u == Some(p)
            else if supply.None? then u == None
            else
              && n <= |supply.value| && u.Some? && u.value == p.(entries := u.value.entries)
              && exists picks :: Inserts(env, p.entries, RowsOf(t, supply.value[..n]), picks, u.value.entries)
  {
    var n := p.targets[t].targetCount - AvailableCount(p.entries, t);
    if n > 0 && supply.Some? {
      InsertsExactly(env, p.entries, RowsOf(t, supply.value[..n]));
    }
    hide Inserts, InsertRows, Stock, RowsOf;
  }

  // ------------------------------------------------------------------ refills

  /** A job waits or has only a part of what it needs. */
  predicate IsOpen(job: Job, scope: Scope) {
    job.scope == scope && (job.status == Waiting || job.status == Partial)
  }

  /** The job with `n` proxies once its refill has ended or raised. */
  function Ended(job: Job, n: nat, raised: bool): Job {
    job.(readyCount := n,
         status := if n >= ReservationTarget(job) then Ready else if n > 0 then Partial else if raised then Failed else Waiting)
  }

  /** Serving moves open jobs only, and among the open statuses and ready. */
  ghost predicate MovesOpen(p: Pool, q: Pool, js: seq<nat>) {
    && |q.jobs| == |p.jobs|
    && forall j: nat | j < |p.jobs| ::
         if j in js then
           q.jobs[j] == p.jobs[j].(readyCount := q.jobs[j].readyCount, status := q.jobs[j].status) && q.jobs[j].status in {Waiting, Partial, Ready}
         else q.jobs[j] == p.jobs[j]
  }

  lemma ServeMoves(env: Env, p: Pool, h: nat)
    requires h < |p.jobs|
    ensures var r := Serve(env, p, h); r.Some? ==> MovesOpen(p, r.value, [h])
  {
    IssueAllFrame(env, p, h, Take(OpenStock(p, p.jobs[h].scope), Shortage(p, h)));
    hide Reserve;
  }

  lemma MovesMore(p: Pool, q: Pool, r: Pool, js: seq<nat>)
    requires js != [] && MovesOpen(p, q, [js[0]]) && MovesOpen(q, r, js[1..])
    ensures MovesOpen(p, r, js)
  {
    assert forall j: nat :: j in js <==> j == js[0] || j in js[1..];
  }

  lemma MovesFew(p: Pool, q: Pool, js: seq<nat>)
    requires |q.jobs| == |p.jobs| && (q.jobs == p.jobs || (js != [] && MovesOpen(p, q, [js[0]])))
    requires forall i :: 0 <= i < |js| ==> js[i] < |p.jobs| && p.jobs[js[i]].status in {Waiting, Partial, Ready}
    ensures MovesOpen(p, q, js)
  {
    forall j: nat | j in js && j < |p.jobs| ensures p.jobs[j].status in {Waiting, Partial, Ready} {
      var i :| 0 <= i < |js| && js[i] == j;
    }
  }

  lemma StillOpen(p: Pool, q: Pool, js: seq<nat>)
    requires js != [] && MovesOpen(p, q, [js[0]])
    requires forall i :: 0 <= i < |js| ==> js[i] < |p.jobs| && p.jobs[js[i]].status in {Waiting, Partial, Ready}
    ensures forall i :: 0 <= i < |js| ==> js[i] < |q.jobs| && q.jobs[js[i]].status in {Waiting, Partial, Ready}
  {
  }

  lemma ServeAllFirst(env: Env, p: Pool, t: nat, js: seq<nat>)
    requires js != [] && forall i :: 0 <= i < |js| ==> js[i] < |p.jobs|
    ensures var r := Serve(env, p, js[0]);
            if r.None? then ServeAll(env, p, t, js).pool == p
            else if AvailableCount(r.value.entries, t) == 0 then ServeAll(env, p, t, js).pool == r.value
            else |r.value.jobs| == |p.jobs| && ServeAll(env, p, t, js) == ServeAll(env, r.value, t, js[1..])
  {
    IssueAllFrame(env, p, js[0], Take(OpenStock(p, p.jobs[js[0]].scope), Shortage(p, js[0])));
    hide Serve, AvailableCount;
  }

  lemma {:induction false} ServeAllMoves(env: Env, p: Pool, t: nat, js: seq<nat>)
    requires forall i :: 0 <= i < |js| ==> js[i] < |p.jobs| && p.jobs[js[i]].status in {Waiting, Partial, Ready}
    ensures MovesOpen(p, ServeAll(env, p, t, js).pool, js)
    decreases |js|
  {
    if js == [] {
      assert ServeAll(env, p, t, js).pool == p;
    } else {
      hide *;
      ServeMoves(env, p, js[0]);
      ServeAllFirst(env, p, t, js);
      var r := Serve(env, p, js[0]);
      if r.None? {
        MovesFew(p, p, js);
      } else if AvailableCount(r.value.entries, t) == 0 {
        MovesSameSize(p, r.value, [js[0]]);
        MovesFew(p, r.value, js);
      } else {
        StillOpen(p, r.value, js);
        ServeAllMoves(env, r.value, t, js[1..]);
        MovesMore(p, r.value, ServeAll(env, p, t, js).pool, js);
      }
    }
  }

  lemma MovesSameSize(p: Pool, q: Pool, js: seq<nat>)
    requires MovesOpen(p, q, js)
    ensures |q.jobs| == |p.jobs|
  {
  }

  lemma FulfillMoves(env: Env, p: Pool, t: nat)
    requires t < |p.targets|
    ensures var q := Fulfill(env, p, t).pool;
            && |q.jobs| == |p.jobs|
            && forall j: nat | j < |p.jobs| ::
                 if IsOpen(p.jobs[j], p.targets[t].scope) then
                   q.jobs[j] == p.jobs[j].(readyCount := q.jobs[j].readyCount, status := q.jobs[j].status) && q.jobs[j].status in {Waiting, Partial, Ready}
                 else q.jobs[j] == p.jobs[j]
  {
    var js := UnfinishedJobs(p.jobs, p.targets[t].scope, |p.jobs|);
    UnfinishedInRange(p.jobs, p.targets[t].scope, |p.jobs|);
    UnfinishedComplete(p.jobs, p.targets[t].scope, |p.jobs|);
    hide UnfinishedJobs, ServeAll;
    ServeAllMoves(env, p, t, js);
  }

  lemma SoundJobEnded(rs: seq<Reservation>, j: nat, before: Job, job: Job, raised: bool)
    requires JobSound(rs, j, job) && job == before.(readyCount := job.readyCount, status := job.status)
    requires job.status in (if raised then {Failed, Partial, Ready} else {Waiting, Partial, Ready})
    ensures job == Ended(before, CountFor(rs, j), raised)
  {
  }

  lemma MarkFailedMoves(q: Pool, t: nat, j: nat)
    requires t < |q.targets| && j < |q.jobs| && JobSound(q.reservations, j, q.jobs[j])
    ensures var job := MarkFailed(q, t).jobs[j];
            && (!IsOpen(q.jobs[j], q.targets[t].scope) ==> job == q.jobs[j])
            && (IsOpen(q.jobs[j], q.targets[t].scope) ==>
                  job == q.jobs[j].(status := job.status) && job.status in {Failed, Partial})
  {
  }

  /** The jobs after a refill: the open ones of its scope have their true count and a status that
      says all, some or none, where none is failed after an error and waiting otherwise; every
      other job is as it was. */
  ghost predicate JobsEnded(p: Pool, q: Pool, scope: Scope, raised: bool) {
    && |q.jobs| == |p.jobs|
    && forall j: nat | j < |p.jobs| ::
         q.jobs[j] == if IsOpen(p.jobs[j], scope) then Ended(p.jobs[j], CountFor(q.reservations, j), raised) else p.jobs[j]
  }

  lemma FulfilledJobsEnd(env: Env, p: Pool, t: nat)
    requires JobsSound(p) && t < |p.targets|
    ensures var o := Fulfill(env, p, t);
            && o.pool.targets == p.targets
            && JobsEnded(p, if o.Done? then o.pool else MarkFailed(o.pool, t), p.targets[t].scope, o.Raised?)
  {
    FulfillMoves(env, p, t);
    FulfillKeeps(env, p, t);
    FulfillFrame(env, p, t);
    var o := Fulfill(env, p, t);
    var q := if o.Done? then o.pool else MarkFailed(o.pool, t);
    if o.Raised? {
      MarkFailedKeeps(o.pool, t);
    }
    hide Fulfill, CountFor, ReservationTarget, Ended;
    forall j: nat | j < |p.jobs|
      ensures q.jobs[j] == if IsOpen(p.jobs[j], p.targets[t].scope) then Ended(p.jobs[j], CountFor(q.reservations, j), o.Raised?) else p.jobs[j]
    {
      assert JobSound(q.reservations, j, q.jobs[j]) && JobSound(o.pool.reservations, j, o.pool.jobs[j]);
      if o.Raised? {
        MarkFailedMoves(o.pool, t, j);
      }
      if IsOpen(p.jobs[j], p.targets[t].scope) {
        SoundJobEnded(q.reservations, j, p.jobs[j], q.jobs[j], o.Raised?);
      }
    }
  }

  lemma FailedJobsEnd(p: Pool, t: nat)
    requires JobsSound(p) && t < |p.targets|
    ensures JobsEnded(p, MarkFailed(p, t), p.targets[t].scope, true)
  {
    var q := MarkFailed(p, t);
    MarkFailedKeeps(p, t);
    hide CountFor, ReservationTarget, Ended;
    forall j: nat | j < |p.jobs|
      ensures q.jobs[j] == if IsOpen(p.jobs[j], p.targets[t].scope) then Ended(p.jobs[j], CountFor(q.reservations, j), true) else p.jobs[j]
    {
      assert JobSound(q.reservations, j, q.jobs[j]) && JobSound(p.reservations, j, p.jobs[j]);
      MarkFailedMoves(p, t, j);
      if IsOpen(p.jobs[j], p.targets[t].scope) {
        SoundJobEnded(q.reservations, j, p.jobs[j], q.jobs[j], true);
      }
    }
  }

  /** A refill, whether it ends or raises, releases its claim and leaves no job of its scope in
      between: after an error none waits any more, and those that got nothing are failed.  A
      target that is switched off or gone is left alone but for the claim. */
  lemma RefillEnds(env: Env, p: Pool, t: nat, supply: Option<seq<string>>)
    requires JobsSound(p) && (t < |p.targets| ==> Supplies(supply, Needed(p, t)))
    ensures var o := Refill(env, p, t, supply);
            if t < |p.targets| then
              && o.pool.targets == p.targets[t := p.targets[t].(refillPending := false, refillRequestedAt := None)]
              && (p.targets[t].active ==> JobsEnded(p, o.pool, p.targets[t].scope, o.Raised?))
              && (!p.targets[t].active ==>
                    o.Done? && o.pool.entries == p.entries && o.pool.jobs == p.jobs && o.pool.reservations == p.reservations)
              && (p.targets[t].active && supply.None? && AvailableCount(p.entries, t) < p.targets[t].targetCount ==>
                    o.Raised? && o.pool.entries == p.entries && o.pool.reservations == p.reservations)
            else o == Done(p)
  {
    if t < |p.targets| && p.targets[t].active {
      var u := TopUp(env, p, t, supply);
      TopUpLeavesJobs(env, p, t, supply);
      if u.Some? {
        SameJobsSound(p, u.value);
        assert u.value.targets == p.targets;
        FulfilledJobsEnd(env, u.value, t);
      } else {
        FailedJobsEnd(p, t);
      }
      hide TopUp, Fulfill, JobsSound, Stock;
    }
  }

  // ------------------------------------------------------------------ panel steps

  /** The rows of `es` in stock for target `t` that come before row `i`. */
  function OlderInStock(es: seq<Entry>, t: nat, i: nat): set<nat> {
    set k: nat | k < i && k < |es| && es[k].state == Available && es[k].target == t
  }

  lemma {:induction false} StockIsOlder(es: seq<Entry>, t: nat, n: nat)
    requires n <= |es|
    ensures |Stock(es, {t}, n)| == |OlderInStock(es, t, n)|
  {
    if n > 0 {
      StockIsOlder(es, t, n - 1);
      assert OlderInStock(es, t, n) == OlderInStock(es, t, n - 1) + (if InStock(es[n - 1], {t}) then {n - 1} else {});
    } else {
      assert OlderInStock(es, t, 0) == {};
    }
  }

  /** Trimming a target to `count` discards exactly the rows with `count` older ones in stock. */
  lemma TrimsExactly(es: seq<Entry>, t: nat, count: nat)
    ensures var fs := Discard(es, Excess(es, t, count));
            |fs| == |es| &&
            forall i: nat | i < |es| ::
              fs[i] ==
                if es[i].state == Available && es[i].target == t && |OlderInStock(es, t, i)| >= count
                then es[i].(state := Discarded) else es[i]
  {
    StockInRange(es, {t}, |es|);
    var fs := Discard(es, Excess(es, t, count));
    forall i: nat | i < |es|
      ensures fs[i] ==
                if es[i].state == Available && es[i].target == t && |OlderInStock(es, t, i)| >= count
                then es[i].(state := Discarded) else es[i]
    {
      if InStock(es[i], {t}) {
        ExcessIsNewest(es, t, count, i);
        StockIsOlder(es, t, i);
      } else {
        assert i in Excess(es, t, count) ==> i in AvailableIds(es, t);
      }
    }
  }

  /** `remove_available` switches the listed targets off, takes their requested refills back, and
      discards their stock; nothing else moves. */
  lemma {:induction false} RemovesExactly(p: Pool, ts: seq<nat>)
    requires forall i :: 0 <= i < |ts| ==> ts[i] < |p.targets|
    ensures var q := RemoveAvailable(p, ts);
            && q.jobs == p.jobs && q.reservations == p.reservations && |q.targets| == |p.targets| && |q.entries| == |p.entries|
            && (forall t: nat | t < |p.targets| ::
                  q.targets[t] == if t in ts then p.targets[t].(active := false, refillPending := false) else p.targets[t])
            && (forall i: nat | i < |p.entries| ::
                  q.entries[i] == if p.entries[i].state == Available && p.entries[i].target in ts then p.entries[i].(state := Discarded) else p.entries[i])
    decreases |ts|
  {
    if ts != [] {
      var t := ts[0];
      DiscardsAll(p.entries, t);
      TrimsExactly(p.entries, t, 0);
      var q := p.(entries := Discard(p.entries, set i | i in AvailableIds(p.entries, t)),
                  targets := p.targets[t := p.targets[t].(active := false, refillPending := false)]);
      hide Discard, Excess, AvailableIds;
      assert forall u :: u in ts <==> u == t || u in ts[1..];
      RemovesExactly(q, ts[1..]);
    }
  }

  /** A target after a resize that leaves `left` rows in its stock: switched on with the new levels,
      and claimed for a refill when it is below its threshold and no refill owns it.  A claim
      that the broker does not take is given back. */
  function Resized(target: Target, left: nat, count: nat, threshold: nat, now: int, staleBefore: int, delivered: bool): Target {
    var r := target.(targetCount := count, replenishBelow := threshold, active := true);
    if left < threshold && (!r.refillPending || r.refillRequestedAt.None? || r.refillRequestedAt.value <= staleBefore)
    then r.(refillPending := delivered, refillRequestedAt := if delivered then Some(now) else None)
    else r
  }

  lemma ResizesOne(targets: seq<Target>, t: nat, left: nat, count: nat, threshold: nat, now: int, staleBefore: int,
                   delivered: bool)
    requires t < |targets|
    ensures var resized := targets[t := targets[t].(targetCount := count, replenishBelow := threshold, active := true)];
            (if left < threshold then QueueRefill(resized, t, now, staleBefore, delivered).0 else resized) ==
              targets[t := Resized(targets[t], left, count, threshold, now, staleBefore, delivered)]
  {
  }

  /** The row goes when its target is resized and `count` older ones are in stock. */
  predicate IsTrimmed(es: seq<Entry>, ts: seq<nat>, count: nat, i: nat)
    requires i < |es|
  {
    es[i].state == Available && es[i].target in ts && |OlderInStock(es, es[i].target, i)| >= count
  }

  lemma TrimmedLater(es: seq<Entry>, t: nat, count: nat, ts: seq<nat>, i: nat)
    requires i < |es| && t !in ts
    ensures var fs := Discard(es, Excess(es, t, count));
            && |fs| == |es|
            && (fs[i].state == Available && fs[i].target in ts ==> OlderInStock(fs, fs[i].target, i) == OlderInStock(es, es[i].target, i))
            && (IsTrimmed(es, [t] + ts, count, i) <==> IsTrimmed(es, [t], count, i) || IsTrimmed(fs, ts, count, i))
            && fs[i] == if IsTrimmed(es, [t], count, i) then es[i].(state := Discarded) else es[i]
  {
    TrimsExactly(es, t, count);
    var fs := Discard(es, Excess(es, t, count));
    hide Discard, Excess;
    if es[i].target in ts {
      assert OlderInStock(fs, es[i].target, i) == OlderInStock(es, es[i].target, i);
    }
  }

  /** The first turn of a resize. */
  lemma ResizeStarts(p: Pool, ts: seq<nat>, count: nat, threshold: nat, now: int, staleBefore: int,
                     delivered: bool) returns (q: Pool)
    requires ts != [] && (forall i :: 0 <= i < |ts| ==> ts[i] < |p.targets|)
    ensures q == p.(entries := q.entries, targets := q.targets) && |q.entries| == |p.entries|
    ensures q.targets ==
              p.targets[ts[0] := Resized(p.targets[ts[0]], Min(count, AvailableCount(p.entries, ts[0])), count, threshold, now, staleBefore, delivered)]
    ensures q.entries == Discard(p.entries, Excess(p.entries, ts[0], count))
    ensures forall u: nat | u != ts[0] :: AvailableCount(q.entries, u) == AvailableCount(p.entries, u)
    ensures Resize(p, ts, count, threshold, now, staleBefore, delivered) == Resize(q, ts[1..], count, threshold, now, staleBefore, delivered)
  {
    var t := ts[0];
    var es := Discard(p.entries, Excess(p.entries, t, count));
    DiscardsNewest(p.entries, t, count);
    var left := Min(count, AvailableCount(p.entries, t));
    assert |es| == |p.entries| && AvailableCount(es, t) == left;
    assert forall u: nat | u != t :: AvailableCount(es, u) == AvailableCount(p.entries, u);
    hide Discard, Excess, AvailableCount, Resized, QueueRefill;
    ResizesOne(p.targets, t, left, count, threshold, now, staleBefore, delivered);
    q := p.(entries := es, targets := p.targets[t := Resized(p.targets[t], left, count, threshold, now, staleBefore, delivered)]);
  }

  /** The entries after a resize: each listed target keeps the oldest `count` of its stock. */
  ghost predicate TrimsListed(es: seq<Entry>, ts: seq<nat>, count: nat, fs: seq<Entry>) {
    |fs| == |es| && forall i: nat | i < |es| :: fs[i] == if IsTrimmed(es, ts, count, i) then es[i].(state := Discarded) else es[i]
  }

  /** The targets after a resize. */
  ghost predicate ResizesListed(p: Pool, ts: seq<nat>, count: nat, threshold: nat, now: int, staleBefore: int,
                                delivered: bool, targets: seq<Target>) {
    && |targets| == |p.targets|
    && forall t: nat | t < |p.targets| ::
         targets[t] ==
           if t in ts then Resized(p.targets[t], Min(count, AvailableCount(p.entries, t)), count, threshold, now, staleBefore, delivered)
           else p.targets[t]
  }

  lemma TrimsNext(es: seq<Entry>, ts: seq<nat>, count: nat, fs: seq<Entry>)
    requires ts != [] && ts[0] !in ts[1..] && TrimsListed(Discard(es, Excess(es, ts[0], count)), ts[1..], count, fs)
    ensures TrimsListed(es, ts, count, fs)
  {
    var t, rest := ts[0], ts[1..];
    var gs := Discard(es, Excess(es, t, count));
    hide Discard, Excess, IsTrimmed;
    assert ts == [t] + rest;
    TrimsExactly(es, t, count);
    forall i: nat | i < |es| ensures fs[i] == if IsTrimmed(es, ts, count, i) then es[i].(state := Discarded) else es[i] {
      TrimmedTwice(es, t, count, rest, ts, i);
    }
  }

  lemma TrimmedTwice(es: seq<Entry>, t: nat, count: nat, rest: seq<nat>, ts: seq<nat>, i: nat)
    requires i < |es| && t !in rest && ts == [t] + rest
    ensures var fs := Discard(es, Excess(es, t, count));
            |fs| == |es| &&
            (if IsTrimmed(fs, rest, count, i) then fs[i].(state := Discarded) else fs[i]) ==
              if IsTrimmed(es, ts, count, i) then es[i].(state := Discarded) else es[i]
  {
    TrimmedLater(es, t, count, rest, i);
    hide Discard, Excess, IsTrimmed;
  }

  lemma ResizesNext(p: Pool, q: Pool, ts: seq<nat>, count: nat, threshold: nat, now: int, staleBefore: int,
                    delivered: bool, targets: seq<Target>)
    requires ts != [] && ts[0] < |p.targets| && ts[0] !in ts[1..]
    requires q.targets ==
               p.targets[ts[0] := Resized(p.targets[ts[0]], Min(count, AvailableCount(p.entries, ts[0])), count, threshold, now, staleBefore, delivered)]
    requires forall u: nat | u != ts[0] :: AvailableCount(q.entries, u) == AvailableCount(p.entries, u)
    requires ResizesListed(q, ts[1..], count, threshold, now, staleBefore, delivered, targets)
    ensures ResizesListed(p, ts, count, threshold, now, staleBefore, delivered, targets)
  {
    hide Resized, AvailableCount;
    assert forall t :: t in ts <==> t == ts[0] || t in ts[1..];
  }

  /** `resize` on distinct targets: each gets the new levels and keeps the oldest `count` of its
      stock; nothing else moves. */
  lemma {:induction false} ResizesExactly(p: Pool, ts: seq<nat>, count: nat, threshold: nat, now: int,
          staleBefore: int, delivered: bool)
    requires (forall i :: 0 <= i < |ts| ==> ts[i] < |p.targets|) && forall i, j | 0 <= i < j < |ts| :: ts[i] != ts[j]
    ensures var q := Resize(p, ts, count, threshold, now, staleBefore, delivered);
            && q.jobs == p.jobs && q.reservations == p.reservations
            && ResizesListed(p, ts, count, threshold, now, staleBefore, delivered, q.targets)
            && TrimsListed(p.entries, ts, count, q.entries)
    decreases |ts|
  {
    if ts != [] {
      assert ts[0] !in ts[1..];
      var q := ResizeStarts(p, ts, count, threshold, now, staleBefore, delivered);
      hide Discard, Excess, AvailableCount, IsTrimmed, Resized, Resize, TrimsListed, ResizesListed;
      ResizesExactly(q, ts[1..], count, threshold, now, staleBefore, delivered);
      var s := Resize(q, ts[1..], count, threshold, now, staleBefore, delivered);
      TrimsNext(p.entries, ts, count, s.entries);
      ResizesNext(p, q, ts, count, threshold, now, staleBefore, delivered, s.targets);
    }
  }
}
