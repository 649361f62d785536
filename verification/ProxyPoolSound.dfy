/** Exactly-once issue: what every step on the pool keeps. */
module ProxyPoolSound {
  import opened Wrappers
  import opened Sequences
  import opened ProxyPool
  import opened ProxyPoolFacts
  import opened ProxyPrefill

  // ------------------------------------------------------------------ the invariant

  /** Entries belong to a target, carry the digest of their current line, and no two live ones
      share it. */
  ghost predicate EntriesSound(env: Env, es: seq<Entry>, targets: nat) {
    && (forall i | 0 <= i < |es| :: es[i].target < targets && es[i].fingerprint == env.digest(es[i].line))
    && (forall i, j | 0 <= i < j < |es| :: Live(es[i]) && Live(es[j]) ==> es[i].fingerprint != es[j].fingerprint)
  }

  /** A reservation of an entry is the issued entry: same line, same digest, same client. */
  predicate Matches(es: seq<Entry>, x: Reservation) {
    x.entry.Some? ==>
      && x.entry.value < |es|
      && es[x.entry.value] == Entry(es[x.entry.value].target, x.fingerprint, x.line, Reserved, Some(x.client))
  }

  ghost predicate ReservationsSound(env: Env, p: Pool) {
    && (forall k | 0 <= k < |p.reservations| ::
          var x := p.reservations[k];
          x.job < |p.jobs| && x.client == p.jobs[x.job].client && x.fingerprint == env.digest(x.line) && Matches(p.entries, x))
    && (forall j, k | 0 <= j < k < |p.reservations| :: p.reservations[j].fingerprint != p.reservations[k].fingerprint)
  }

  predicate Backed(rs: seq<Reservation>, i: nat) {
    exists k :: 0 <= k < |rs| && rs[k].entry == Some(i)
  }

  ghost predicate ReservedBacked(p: Pool) {
    forall i: nat | i < |p.entries| && p.entries[i].state == Reserved :: Backed(p.reservations, i)
  }

  ghost predicate Sound(env: Env, p: Pool) {
    UniqueScopes(p.targets) && EntriesSound(env, p.entries, |p.targets|) && ReservationsSound(env, p) && ReservedBacked(p)
  }

  /** What the history keeps: rows stay, an issued entry never changes again, a discarded one
      never returns, and reservations are only added. */
  predicate LaterEntry(e: Entry, f: Entry) {
    f == e || (e.state == Available && f.target == e.target && f.state != Available)
  }

  predicate SameJob(a: Job, b: Job) {
    b == a.(readyCount := b.readyCount, status := b.status)
  }

  ghost predicate Extends(p: Pool, q: Pool) {
    && |p.targets| <= |q.targets| && |p.entries| <= |q.entries| && |p.jobs| <= |q.jobs| && |p.reservations| <= |q.reservations|
    && (forall t | 0 <= t < |p.targets| :: q.targets[t].scope == p.targets[t].scope)
    && (forall i | 0 <= i < |p.entries| :: LaterEntry(p.entries[i], q.entries[i]))
    && (forall j | 0 <= j < |p.jobs| :: SameJob(p.jobs[j], q.jobs[j]))
    && (forall k | 0 <= k < |p.reservations| :: q.reservations[k] == p.reservations[k])
  }

  lemma ExtendsTransitive(p: Pool, q: Pool, r: Pool)
    requires Extends(p, q) && Extends(q, r)
    ensures Extends(p, r)
  {
    forall i | 0 <= i < |p.entries| ensures LaterEntry(p.entries[i], r.entries[i]) {
      assert LaterEntry(p.entries[i], q.entries[i]) && LaterEntry(q.entries[i], r.entries[i]);
    }
    forall j | 0 <= j < |p.jobs| ensures SameJob(p.jobs[j], r.jobs[j]) {
      assert SameJob(p.jobs[j], q.jobs[j]) && SameJob(q.jobs[j], r.jobs[j]);
    }
  }

  /** `q` is a sound continuation of `p`. */
  ghost predicate Good(env: Env, p: Pool, q: Pool) {
    Sound(env, q) && Extends(p, q)
  }

  // ------------------------------------------------------------------ elementary changes

  /** Changes that issue nothing: targets, jobs' counters, new or discarded entries. */
  lemma NothingIssued(env: Env, p: Pool, q: Pool)
    requires Sound(env, p) && Extends(p, q) && q.reservations == p.reservations
    requires UniqueScopes(q.targets) && EntriesSound(env, q.entries, |q.targets|)
    requires forall i | 0 <= i < |q.entries| && q.entries[i].state == Reserved :: i < |p.entries| && p.entries[i].state == Reserved
    ensures Good(env, p, q)
  {
    forall k | 0 <= k < |q.reservations| ensures Matches(q.entries, q.reservations[k]) {
      assert Matches(p.entries, p.reservations[k]);
      if q.reservations[k].entry.Some? {
        assert LaterEntry(p.entries[q.reservations[k].entry.value], q.entries[q.reservations[k].entry.value]);
      }
    }
    forall k | 0 <= k < |q.reservations| ensures q.reservations[k].client == q.jobs[q.reservations[k].job].client {
      assert SameJob(p.jobs[p.reservations[k].job], q.jobs[p.reservations[k].job]);
    }
    forall i: nat | i < |q.entries| && q.entries[i].state == Reserved ensures Backed(q.reservations, i) {
      assert Backed(p.reservations, i);
    }
  }

  lemma {:induction false} InsertRowsSound(env: Env, es: seq<Entry>, rows: seq<Row>, targets: nat)
    requires EntriesSound(env, es, targets) && forall r | 0 <= r < |rows| :: rows[r].target < targets
    ensures var fs := InsertRows(env, es, rows);
            && EntriesSound(env, fs, targets) && |es| <= |fs| && fs[..|es|] == es
            && forall i | |es| <= i < |fs| :: fs[i].state == Available
    decreases |rows|
  {
    if rows != [] {
      var e := NewEntry(env, rows[0]);
      var next := if FingerprintUsed(es, e.fingerprint, |es|) then es else es + [e];
      assert EntriesSound(env, next, targets);
      InsertRowsSound(env, next, rows[1..], targets);
      var fs := InsertRows(env, es, rows);
      assert fs[..|es|] == fs[..|next|][..|es|];
      forall i | |es| <= i < |fs| ensures fs[i].state == Available {
        if i < |next| {
          assert fs[i] == fs[..|next|][i];
        }
      }
    }
  }

  lemma {:induction false} StrictIsInsert(env: Env, es: seq<Entry>, rows: seq<Row>)
    ensures var r := InsertStrictly(env, es, rows);
            r.Some? ==> r.value == InsertRows(env, es, rows) && r.value == es + NewEntries(env, rows)
    decreases |rows|
  {
    if rows != [] {
      var e := NewEntry(env, rows[0]);
      StrictIsInsert(env, es + [e], rows[1..]);
      assert NewEntries(env, rows) == [e] + NewEntries(env, rows[1..]);
    } else {
      assert es + NewEntries(env, rows) == es;
    }
  }

  lemma InsertingIsGood(env: Env, p: Pool, rows: seq<Row>)
    requires Sound(env, p) && forall r | 0 <= r < |rows| :: rows[r].target < |p.targets|
    ensures Good(env, p, p.(entries := InsertRows(env, p.entries, rows)))
  {
    InsertRowsSound(env, p.entries, rows, |p.targets|);
    var q := p.(entries := InsertRows(env, p.entries, rows));
    assert forall i | 0 <= i < |p.entries| :: q.entries[i] == q.entries[..|p.entries|][i];
    NothingIssued(env, p, q);
  }

  lemma DiscardingIsGood(env: Env, p: Pool, gone: set<nat>)
    requires Sound(env, p)
    ensures Good(env, p, p.(entries := Discard(p.entries, gone)))
  {
    var q := p.(entries := Discard(p.entries, gone));
    assert forall i | 0 <= i < |p.entries| :: LaterEntry(p.entries[i], q.entries[i]);
    NothingIssued(env, p, q);
  }

  lemma RetargetingIsGood(env: Env, p: Pool, targets: seq<Target>)
    requires Sound(env, p) && UniqueScopes(targets) && |p.targets| <= |targets|
    requires forall t | 0 <= t < |p.targets| :: targets[t].scope == p.targets[t].scope
    ensures Good(env, p, p.(targets := targets))
  {
    NothingIssued(env, p, p.(targets := targets));
  }

  lemma RecountingIsGood(env: Env, p: Pool, jobs: seq<Job>)
    requires Sound(env, p) && |p.jobs| <= |jobs| && forall j | 0 <= j < |p.jobs| :: SameJob(p.jobs[j], jobs[j])
    ensures Good(env, p, p.(jobs := jobs))
  {
    NothingIssued(env, p, p.(jobs := jobs));
  }

  // ------------------------------------------------------------------ issuing

  lemma IssueOneEntries(env: Env, p: Pool, job: nat, id: nat)
    requires Sound(env, p) && job < |p.jobs| && id < |p.entries| && p.entries[id].state == Available
    ensures var r := IssueOne(env, p, job, id); r.Some? ==> EntriesSound(env, r.value.entries, |p.targets|)
  {
    var r := IssueOne(env, p, job, id);
    if r.Some? {
      var es, fs := p.entries, r.value.entries;
      var line := env.repair(p.jobs[job].scope, es[id].line);
      forall i | 0 <= i < |fs| && i != id && Live(fs[i]) ensures fs[i].fingerprint != fs[id].fingerprint {
        if line != es[id].line {
          assert !FingerprintUsed(es, env.digest(line), id);
        }
      }
    }
  }

  /** Issuing an available entry writes the one reservation that matches it. */
  lemma IssueOneIsGood(env: Env, p: Pool, job: nat, id: nat)
    requires Sound(env, p) && job < |p.jobs| && id < |p.entries| && p.entries[id].state == Available
    ensures var r := IssueOne(env, p, job, id);
            r.Some? ==>
              && Good(env, p, r.value) && r.value.jobs == p.jobs && r.value.targets == p.targets
              && forall i | 0 <= i < |p.entries| && i != id :: r.value.entries[i] == p.entries[i]
  {
    var r := IssueOne(env, p, job, id);
    if r.Some? {
      var q := r.value;
      IssueOneEntries(env, p, job, id);
      var last := q.reservations[|p.reservations|];
      assert last.fingerprint == env.digest(last.line);
      forall k | 0 <= k < |p.reservations| ensures Matches(q.entries, q.reservations[k]) {
        assert Matches(p.entries, p.reservations[k]);
      }
      forall i: nat | i < |q.entries| && q.entries[i].state == Reserved ensures Backed(q.reservations, i) {
        if i == id {
          assert q.reservations[|p.reservations|].entry == Some(id);
        } else {
          assert Backed(p.reservations, i);
          var k :| 0 <= k < |p.reservations| && p.reservations[k].entry == Some(i);
          assert q.reservations[k].entry == Some(i);
        }
      }
    }
  }

  lemma {:induction false} IssueAllIsGood(env: Env, p: Pool, job: nat, ids: seq<nat>)
    requires Sound(env, p) && job < |p.jobs|
    requires forall i :: 0 <= i < |ids| ==> ids[i] < |p.entries| && p.entries[ids[i]].state == Available
    requires forall i, j :: 0 <= i < j < |ids| ==> ids[i] < ids[j]
    ensures var r := IssueAll(env, p, job, ids); r.Some? ==> Good(env, p, r.value)
    decreases |ids|
  {
    if ids != [] {
      IssueOneIsGood(env, p, job, ids[0]);
      var r := IssueOne(env, p, job, ids[0]);
      hide Sound, Extends;
      if r.Some? {
        IssueAllIsGood(env, r.value, job, ids[1..]);
        var q := IssueAll(env, r.value, job, ids[1..]);
        if q.Some? {
          ExtendsTransitive(p, r.value, q.value);
        }
      } 
    } else {
      assert Extends(p, p);
    }
  }

  lemma ReserveIsGood(env: Env, p: Pool, job: nat)
    requires Sound(env, p) && job < |p.jobs|
    ensures var r := Reserve(env, p, job); r.Some? ==> Good(env, p, r.value)
  {
    hide Sound;
    StockInRange(p.entries, ActiveTargets(p.targets, p.jobs[job].scope), |p.entries|);
    StockComplete(p.entries, ActiveTargets(p.targets, p.jobs[job].scope), |p.entries|);
    IssueAllIsGood(env, p, job, Take(OpenStock(p, p.jobs[job].scope), Shortage(p, job)));
  }

  lemma {:induction false} ReserveStaticIsGood(env: Env, p: Pool, job: nat, limit: nat, lines: seq<string>)
    requires Sound(env, p) && job < |p.jobs|
    ensures Good(env, p, p.(reservations := ReserveStatic(env, p.reservations, p.jobs[job].client, job, limit, lines)))
    decreases |lines|
  {
    if lines == [] || limit == 0 {
      assert p.(reservations := p.reservations) == p;
    } else {
      var fingerprint := env.digest(lines[0]);
      if FingerprintIssued(p.reservations, fingerprint) {
        ReserveStaticIsGood(env, p, job, limit, lines[1..]);
      } else {
        var x := Reservation(p.jobs[job].client, job, None, fingerprint, lines[0]);
        var q := p.(reservations := p.reservations + [x]);
        StaticReservationIsGood(env, p, job, x);
        hide Sound, Extends;
        ReserveStaticIsGood(env, q, job, limit - 1, lines[1..]);
        ExtendsTransitive(p, q, q.(reservations := ReserveStatic(env, q.reservations, p.jobs[job].client, job, limit - 1, lines[1..])));
      }
    }
  }

  lemma StaticReservationIsGood(env: Env, p: Pool, job: nat, x: Reservation)
    requires Sound(env, p) && job < |p.jobs| && x.job == job && x.client == p.jobs[job].client && x.entry.None?
    requires x.fingerprint == env.digest(x.line) && !FingerprintIssued(p.reservations, x.fingerprint)
    ensures Good(env, p, p.(reservations := p.reservations + [x]))
  {
    var q := p.(reservations := p.reservations + [x]);
    forall k | 0 <= k < |q.reservations| ensures Matches(q.entries, q.reservations[k]) {
      if k < |p.reservations| {
        assert Matches(p.entries, p.reservations[k]);
      }
    }
    forall i: nat | i < |q.entries| && q.entries[i].state == Reserved ensures Backed(q.reservations, i) {
      assert Backed(p.reservations, i);
      var k :| 0 <= k < |p.reservations| && p.reservations[k].entry == Some(i);
      assert q.reservations[k].entry == Some(i);
    }
  }

  // ------------------------------------------------------------------ operations

  lemma ServeIsGood(env: Env, p: Pool, job: nat)
    requires Sound(env, p) && job < |p.jobs|
    ensures var r := Serve(env, p, job); r.Some? ==> Good(env, p, r.value) && |r.value.jobs| == |p.jobs| && r.value.targets == p.targets
  {
    ReserveIsGood(env, p, job);
    IssueAllFrame(env, p, job, Take(OpenStock(p, p.jobs[job].scope), Shortage(p, job)));
    hide Sound, Extends;
    var r := Reserve(env, p, job);
    if r.Some? {
      RecountingIsGood(env, r.value, Recount(r.value, job).jobs);
      ExtendsTransitive(p, r.value, Recount(r.value, job));
    }
  }

  lemma {:induction false} ServeAllIsGood(env: Env, p: Pool, t: nat, js: seq<nat>)
    requires Sound(env, p) && forall i :: 0 <= i < |js| ==> js[i] < |p.jobs|
    ensures Good(env, p, ServeAll(env, p, t, js).pool)
    decreases |js|
  {
    assert Extends(p, p);
    hide Sound, Extends;
    if js != [] {
      ServeIsGood(env, p, js[0]);
      var r := Serve(env, p, js[0]);
      if r.Some? && AvailableCount(r.value.entries, t) != 0 {
        ServeAllIsGood(env, r.value, t, js[1..]);
        ExtendsTransitive(p, r.value, ServeAll(env, r.value, t, js[1..]).pool);
      }
    }
  }

  lemma FulfillIsGood(env: Env, p: Pool, t: nat)
    requires Sound(env, p) && t < |p.targets|
    ensures Good(env, p, Fulfill(env, p, t).pool)
  {
    hide Sound, Extends;
    UnfinishedInRange(p.jobs, p.targets[t].scope, |p.jobs|);
    ServeAllIsGood(env, p, t, UnfinishedJobs(p.jobs, p.targets[t].scope, |p.jobs|));
  }
}
