/** What a new job is given, line by line, from the tables before the request. */
module ProxyPoolCreation {
  import opened Wrappers
  import opened Sequences
  import opened ProxyPool
  import opened ProxyPoolFacts
  import opened ProxyPoolSound
  import opened ProxyPoolRuns
  import opened ProxyPoolStock

  // ------------------------------------------------------------------ the first of some keys

  /** `picks` are the first `limit` of the keys `wanted`, in order: a key is picked exactly when
      it is wanted and fewer than `limit` wanted ones come before it. */
  ghost predicate AreFirst(picks: seq<nat>, wanted: set<nat>, limit: nat) {
    && (forall i, j | 0 <= i < j < |picks| :: picks[i] < picks[j])
    && (forall x: nat :: x in picks <==> x in wanted && |Below(wanted, x)| < limit)
  }

  function Below(wanted: set<nat>, x: nat): set<nat> {
    set y | y in wanted && y < x
  }

  ghost predicate Enumerates(all: seq<nat>, wanted: set<nat>) {
    && (forall i, j | 0 <= i < j < |all| :: all[i] < all[j])
    && (forall x: nat :: x in all <==> x in wanted)
  }

  lemma BelowNext(all: seq<nat>, wanted: set<nat>, k: nat)
    requires Enumerates(all, wanted) && 0 < k < |all|
    ensures |Below(wanted, all[k])| == |Below(wanted, all[k - 1])| + 1
  {
    var a, b := all[k - 1], all[k];
    assert a in all && a < b;
    forall x | x in wanted ensures x < b <==> x < a || x == a {
      assert x in all;
      var i :| 0 <= i < |all| && all[i] == x;
      assert i < k - 1 ==> x < a;
      assert i > k ==> b < x;
    }
    assert Below(wanted, b) == Below(wanted, a) + {a};
  }

  lemma {:induction false} RankIsIndex(all: seq<nat>, wanted: set<nat>, k: nat)
    requires Enumerates(all, wanted) && k < |all|
    ensures |Below(wanted, all[k])| == k
    decreases k
  {
    if k == 0 {
      assert Below(wanted, all[0]) == {};
    } else {
      RankIsIndex(all, wanted, k - 1);
      BelowNext(all, wanted, k);
    }
  }

  lemma {:induction false} EnumerationSize(all: seq<nat>, wanted: set<nat>)
    requires Enumerates(all, wanted)
    ensures |all| == |wanted|
  {
    if all == [] {
      assert wanted == {};
    } else {
      var k := |all| - 1;
      RankIsIndex(all, wanted, k);
      assert wanted == Below(wanted, all[k]) + {all[k]};
    }
  }

  lemma PrefixIsFirst(all: seq<nat>, wanted: set<nat>, limit: nat)
    requires Enumerates(all, wanted)
    ensures AreFirst(Take(all, limit), wanted, limit) && |Take(all, limit)| == Min(limit, |wanted|)
  {
    var picks := Take(all, limit);
    EnumerationSize(all, wanted);
    forall x: nat ensures x in picks <==> x in wanted && |Below(wanted, x)| < limit {
      if x in all {
        var k :| 0 <= k < |all| && all[k] == x;
        RankIsIndex(all, wanted, k);
        if k < limit {
          assert picks[k] == x;
        }
      }
    }
  }

  // ------------------------------------------------------------------ the stock of a request

  /** The rows open to a scope: in stock, for a target of the scope that is active. */
  function OpenRows(p: Pool, scope: Scope): set<nat> {
    set i: nat | i < |p.entries| && p.entries[i].state == Available && p.entries[i].target < |p.targets| &&
                 p.targets[p.entries[i].target].scope == scope && p.targets[p.entries[i].target].active
  }

  lemma OpenStockIsOpen(p: Pool, scope: Scope)
    ensures Enumerates(OpenStock(p, scope), OpenRows(p, scope))
  {
    StockComplete(p.entries, ActiveTargets(p.targets, scope), |p.entries|);
    hide Stock;
  }

  /** The reservation of a row, with its repaired line. */
  function FromStock(env: Env, scope: Scope, client: nat, job: nat, row: nat, e: Entry): Reservation {
    var line := env.repair(scope, e.line);
    Reservation(client, job, Some(row), env.digest(line), line)
  }

  function AllFromStock(env: Env, scope: Scope, client: nat, job: nat, es: seq<Entry>, rows: seq<nat>): seq<Reservation>
    requires forall k | 0 <= k < |rows| :: rows[k] < |es|
  {
    seq(|rows|, k requires 0 <= k < |rows| => FromStock(env, scope, client, job, rows[k], es[rows[k]]))
  }

  /** The row afterwards. */
  function IssuedRow(env: Env, scope: Scope, client: nat, e: Entry): Entry {
    var line := env.repair(scope, e.line);
    Entry(e.target, env.digest(line), line, Reserved, Some(client))
  }

  ghost predicate RowsIssued(env: Env, scope: Scope, client: nat, es: seq<Entry>, fs: seq<Entry>, rows: seq<nat>) {
    |fs| == |es| && forall i: nat | i < |es| :: fs[i] == if i in rows then IssuedRow(env, scope, client, es[i]) else es[i]
  }

  lemma IssueOneGives(env: Env, p: Pool, job: nat, id: nat)
    requires job < |p.jobs| && id < |p.entries| && p.entries[id].fingerprint == env.digest(p.entries[id].line)
    ensures var r, scope, client := IssueOne(env, p, job, id), p.jobs[job].scope, p.jobs[job].client;
            r.Some? ==>
              && r.value == p.(entries := r.value.entries, reservations := r.value.reservations)
              && r.value.reservations == p.reservations + [FromStock(env, scope, client, job, id, p.entries[id])]
              && r.value.entries == p.entries[id := IssuedRow(env, scope, client, p.entries[id])]
  {
  }

  lemma FirstFromStock(env: Env, scope: Scope, client: nat, job: nat, es: seq<Entry>, fs: seq<Entry>, rows: seq<nat>)
    requires rows != [] && |fs| == |es| && forall i | 0 <= i < |rows| :: rows[i] < |es|
    requires forall i | 1 <= i < |rows| :: fs[rows[i]] == es[rows[i]]
    ensures AllFromStock(env, scope, client, job, es, rows) ==
              [FromStock(env, scope, client, job, rows[0], es[rows[0]])] + AllFromStock(env, scope, client, job, fs, rows[1..])
  {
    hide FromStock;
  }

  lemma RowsIssuedFirst(env: Env, scope: Scope, client: nat, es: seq<Entry>, fs: seq<Entry>, gs: seq<Entry>, rows: seq<nat>)
    requires rows != [] && rows[0] < |es| && fs == es[rows[0] := IssuedRow(env, scope, client, es[rows[0]])]
    requires rows[0] !in rows[1..] && RowsIssued(env, scope, client, fs, gs, rows[1..])
    ensures RowsIssued(env, scope, client, es, gs, rows)
  {
    hide IssuedRow;
    assert forall i :: i in rows <==> i == rows[0] || i in rows[1..];
  }

  lemma {:induction false} IssueAllGives(env: Env, p: Pool, job: nat, rows: seq<nat>)
    requires job < |p.jobs| && forall i, j | 0 <= i < j < |rows| :: rows[i] < rows[j]
    requires forall i | 0 <= i < |rows| :: rows[i] < |p.entries|
    requires forall i | 0 <= i < |rows| :: p.entries[rows[i]].fingerprint == env.digest(p.entries[rows[i]].line)
    ensures var r, scope, client := IssueAll(env, p, job, rows), p.jobs[job].scope, p.jobs[job].client;
            r.Some? ==>
              && r.value == p.(entries := r.value.entries, reservations := r.value.reservations)
              && r.value.reservations == p.reservations + AllFromStock(env, scope, client, job, p.entries, rows)
              && RowsIssued(env, scope, client, p.entries, r.value.entries, rows)
    decreases |rows|
  {
    if rows != [] {
      IssueOneGives(env, p, job, rows[0]);
      var r, scope, client := IssueOne(env, p, job, rows[0]), p.jobs[job].scope, p.jobs[job].client;
      hide IssueOne, FromStock, IssuedRow;
      if r.Some? {
        var rest := rows[1..];
        assert forall i | 0 <= i < |rest| :: rest[i] == rows[i + 1] && r.value.entries[rest[i]] == p.entries[rest[i]];
        hide AllFromStock, RowsIssued;
        IssueAllGives(env, r.value, job, rest);
        FirstFromStock(env, scope, client, job, p.entries, r.value.entries, rows);
        var q := IssueAll(env, r.value, job, rest);
        if q.Some? {
          RowsIssuedFirst(env, scope, client, p.entries, r.value.entries, q.value.entries, rows);
        }
      }
    }
  }

  // ------------------------------------------------------------------ the lines of the catalog

  function Digests(rs: seq<Reservation>): set<string> {
    set x | x in rs :: x.fingerprint
  }

  /** The catalog lines whose digest is neither issued nor that of an earlier line. */
  function FreshLines(env: Env, issued: set<string>, catalog: seq<string>): set<nat> {
    set i: nat | i < |catalog| && env.digest(catalog[i]) !in issued &&
                 forall j | 0 <= j < i :: env.digest(catalog[j]) != env.digest(catalog[i])
  }

  /** The digests of the catalog that are not issued. */
  function FreshDigests(env: Env, issued: set<string>, catalog: seq<string>): set<string> {
    set i: nat | i < |catalog| && env.digest(catalog[i]) !in issued :: env.digest(catalog[i])
  }

  /** There are as many such lines as distinct digests that are not issued. */
  lemma {:induction false} OneLinePerDigest(env: Env, issued: set<string>, catalog: seq<string>)
    ensures |FreshLines(env, issued, catalog)| == |FreshDigests(env, issued, catalog)|
    decreases |catalog|
  {
    if catalog != [] {
      var n := |catalog| - 1;
      var before, d := catalog[..n], env.digest(catalog[n]);
      OneLinePerDigest(env, issued, before);
      assert forall i | 0 <= i < n :: before[i] == catalog[i];
      var lines, digests := FreshLines(env, issued, before), FreshDigests(env, issued, before);
      if d in issued || d in digests {
        assert FreshLines(env, issued, catalog) == lines;
        assert FreshDigests(env, issued, catalog) == digests;
      } else {
        LastLineIsFresh(env, issued, catalog);
      }
    } else {
      assert FreshLines(env, issued, catalog) == {};
      assert FreshDigests(env, issued, catalog) == {};
    }
  }

  lemma LastLineIsFresh(env: Env, issued: set<string>, catalog: seq<string>)
    requires catalog != []
    requires var d := env.digest(catalog[|catalog| - 1]); d !in issued && d !in FreshDigests(env, issued, catalog[..|catalog| - 1])
    ensures var n := |catalog| - 1;
            && |FreshLines(env, issued, catalog)| == |FreshLines(env, issued, catalog[..n])| + 1
            && |FreshDigests(env, issued, catalog)| == |FreshDigests(env, issued, catalog[..n])| + 1
  {
    var n := |catalog| - 1;
    var before, d := catalog[..n], env.digest(catalog[n]);
    assert forall i | 0 <= i < n :: before[i] == catalog[i];
    forall j | 0 <= j < n ensures env.digest(catalog[j]) != d {
      assert env.digest(before[j]) !in issued ==> env.digest(before[j]) in FreshDigests(env, issued, before);
    }
    assert FreshLines(env, issued, catalog) == FreshLines(env, issued, before) + {n};
    assert FreshDigests(env, issued, catalog) == FreshDigests(env, issued, before) + {d};
  }

  function FreshFrom(env: Env, seen: set<string>, catalog: seq<string>, from: nat): (picks: seq<nat>)
    requires from <= |catalog|
    ensures forall k | 0 <= k < |picks| :: from <= picks[k] < |catalog|
    decreases |catalog| - from
  {
    if from == |catalog| then []
    else
      var d := env.digest(catalog[from]);
      if d in seen then FreshFrom(env, seen, catalog, from + 1) else [from] + FreshFrom(env, seen + {d}, catalog, from + 1)
  }

  /** The line is new to `seen` and to the lines from `from` on that come before it. */
  predicate IsFreshFrom(env: Env, seen: set<string>, catalog: seq<string>, from: nat, x: nat) {
    && from <= x < |catalog| && env.digest(catalog[x]) !in seen
    && forall j | from <= j < x :: env.digest(catalog[j]) != env.digest(catalog[x])
  }

  lemma {:induction false} FreshFromListsThem(env: Env, seen: set<string>, catalog: seq<string>, from: nat)
    requires from <= |catalog|
    ensures forall i, j | 0 <= i < j < |FreshFrom(env, seen, catalog, from)| :: FreshFrom(env, seen, catalog, from)[i] < FreshFrom(env, seen, catalog, from)[j]
    ensures forall x: nat :: x in FreshFrom(env, seen, catalog, from) <==> IsFreshFrom(env, seen, catalog, from, x)
    decreases |catalog| - from
  {
    if from < |catalog| {
      var d := env.digest(catalog[from]);
      var more := if d in seen then seen else seen + {d};
      FreshFromListsThem(env, more, catalog, from + 1);
      forall x: nat ensures IsFreshFrom(env, seen, catalog, from, x) <==> (x == from && d !in seen) || IsFreshFrom(env, more, catalog, from + 1, x) {
      }
    }
  }

  lemma FreshAreEnumerated(env: Env, seen: set<string>, catalog: seq<string>)
    ensures Enumerates(FreshFrom(env, seen, catalog, 0), FreshLines(env, seen, catalog))
  {
    FreshFromListsThem(env, seen, catalog, 0);
    assert forall x: nat :: x in FreshLines(env, seen, catalog) <==> IsFreshFrom(env, seen, catalog, 0, x);
  }

  function FromCatalog(env: Env, client: nat, job: nat, line: string): Reservation {
    Reservation(client, job, None, env.digest(line), line)
  }

  function AllFromCatalog(env: Env, client: nat, job: nat, catalog: seq<string>, picks: seq<nat>): seq<Reservation>
    requires forall k | 0 <= k < |picks| :: picks[k] < |catalog|
  {
    seq(|picks|, k requires 0 <= k < |picks| => FromCatalog(env, client, job, catalog[picks[k]]))
  }

  lemma DigestsGrow(rs: seq<Reservation>, x: Reservation, fingerprint: string)
    ensures Digests(rs + [x]) == Digests(rs) + {x.fingerprint}
    ensures FingerprintIssued(rs, fingerprint) <==> fingerprint in Digests(rs)
  {
    assert forall y :: y in rs + [x] <==> y in rs || y == x;
    if fingerprint in Digests(rs) {
      var y :| y in rs && y.fingerprint == fingerprint;
      var i :| 0 <= i < |rs| && rs[i] == y;
    }
  }

  lemma StaticNext(env: Env, rs: seq<Reservation>, client: nat, job: nat, limit: nat, catalog: seq<string>, from: nat)
    requires from < |catalog| && limit > 0
    ensures var x := FromCatalog(env, client, job, catalog[from]);
            ReserveStatic(env, rs, client, job, limit, catalog[from..]) ==
              if x.fingerprint in Digests(rs) then ReserveStatic(env, rs, client, job, limit, catalog[from + 1..])
              else ReserveStatic(env, rs + [x], client, job, limit - 1, catalog[from + 1..])
  {
    var x := FromCatalog(env, client, job, catalog[from]);
    assert catalog[from..][0] == catalog[from] && catalog[from..][1..] == catalog[from + 1..];
    DigestsGrow(rs, x, x.fingerprint);
    hide Digests, FingerprintIssued;
  }

  lemma FreshNext(env: Env, seen: set<string>, catalog: seq<string>, from: nat)
    requires from < |catalog|
    ensures var d := env.digest(catalog[from]);
            FreshFrom(env, seen, catalog, from) ==
              if d in seen then FreshFrom(env, seen, catalog, from + 1) else [from] + FreshFrom(env, seen + {d}, catalog, from + 1)
  {
  }

  lemma FirstFromCatalog(env: Env, rs: seq<Reservation>, client: nat, job: nat, limit: nat, catalog: seq<string>,
                         from: nat, rest: seq<nat>)
    requires from < |catalog| && limit > 0 && forall k | 0 <= k < |rest| :: rest[k] < |catalog|
    ensures forall k | 0 <= k < |Take([from] + rest, limit)| :: Take([from] + rest, limit)[k] < |catalog|
    ensures (rs + [FromCatalog(env, client, job, catalog[from])]) + AllFromCatalog(env, client, job, catalog, Take(rest, limit - 1)) ==
              rs + AllFromCatalog(env, client, job, catalog, Take([from] + rest, limit))
  {
    assert Take([from] + rest, limit) == [from] + Take(rest, limit - 1);
    hide FromCatalog;
    assert AllFromCatalog(env, client, job, catalog, [from] + Take(rest, limit - 1)) ==
           [FromCatalog(env, client, job, catalog[from])] + AllFromCatalog(env, client, job, catalog, Take(rest, limit - 1));
  }

  lemma StaticEnds(env: Env, rs: seq<Reservation>, client: nat, job: nat, limit: nat, catalog: seq<string>, from: nat, all: seq<nat>)
    requires from <= |catalog| && (from == |catalog| || limit == 0) && all == FreshFrom(env, Digests(rs), catalog, from)
    ensures ReserveStatic(env, rs, client, job, limit, catalog[from..]) == rs + AllFromCatalog(env, client, job, catalog, Take(all, limit))
  {
    assert Take(all, limit) == [];
    assert AllFromCatalog(env, client, job, catalog, []) == [];
  }

  lemma {:induction false} StaticGives(env: Env, rs: seq<Reservation>, client: nat, job: nat, limit: nat, catalog: seq<string>, from: nat,
                                       all: seq<nat>)
    requires from <= |catalog| && all == FreshFrom(env, Digests(rs), catalog, from)
    ensures forall k | 0 <= k < |Take(all, limit)| :: Take(all, limit)[k] < |catalog|
    ensures ReserveStatic(env, rs, client, job, limit, catalog[from..]) == rs + AllFromCatalog(env, client, job, catalog, Take(all, limit))
    decreases |catalog| - from
  {
    if from < |catalog| && limit > 0 {
      var x := FromCatalog(env, client, job, catalog[from]);
      assert x.fingerprint == env.digest(catalog[from]);
      hide ReserveStatic, FreshFrom, AllFromCatalog, Take, Digests, FromCatalog;
      StaticNext(env, rs, client, job, limit, catalog, from);
      FreshNext(env, Digests(rs), catalog, from);
      if x.fingerprint in Digests(rs) {
        StaticGives(env, rs, client, job, limit, catalog, from + 1, all);
      } else {
        DigestsGrow(rs, x, x.fingerprint);
        var rest := FreshFrom(env, Digests(rs + [x]), catalog, from + 1);
        StaticGives(env, rs + [x], client, job, limit - 1, catalog, from + 1, rest);
        FirstFromCatalog(env, rs, client, job, limit, catalog, from, rest);
      }
    } else {
      StaticEnds(env, rs, client, job, limit, catalog, from, all);
    }
  }

  /** The catalog gives the first new lines, in order. */
  lemma StaticExactly(env: Env, rs: seq<Reservation>, client: nat, job: nat, limit: nat,
                      catalog: seq<string>) returns (picks: seq<nat>)
    ensures AreFirst(picks, FreshLines(env, Digests(rs), catalog), limit)
    ensures |picks| == Min(limit, |FreshDigests(env, Digests(rs), catalog)|) && forall k | 0 <= k < |picks| :: picks[k] < |catalog|
    ensures ReserveStatic(env, rs, client, job, limit, catalog) == rs + AllFromCatalog(env, client, job, catalog, picks)
  {
    var issued := Digests(rs);
    var all := FreshFrom(env, issued, catalog, 0);
    picks := Take(all, limit);
    assert catalog[0..] == catalog;
    StaticGives(env, rs, client, job, limit, catalog, 0, all);
    FreshAreEnumerated(env, issued, catalog);
    PrefixIsFirst(all, FreshLines(env, issued, catalog), limit);
    OneLinePerDigest(env, issued, catalog);
  }

  // ------------------------------------------------------------------ the new job

  /** The status of a new job with `n` proxies. */
  function NewStatus(n: nat, candidates: nat, autoGenerate: bool): JobStatus {
    if n == 0 then (if autoGenerate then Waiting else Failed) else if n < candidates then Partial else Ready
  }

  /** How many catalog lines a request may take once the stock gave it `n`. */
  function CatalogLimit(r: JobRequest, n: nat): nat {
    if r.scope.region == "" && r.scope.city == "" && n < r.candidateCount then r.candidateCount - n else 0
  }

  /** The reservations of the new job: the rows from the stock, and then the catalog lines. */
  function Given(env: Env, p: Pool, r: JobRequest, catalog: seq<string>, rows: seq<nat>, picks: seq<nat>): seq<Reservation>
    requires forall k | 0 <= k < |rows| :: rows[k] < |p.entries|
    requires forall k | 0 <= k < |picks| :: picks[k] < |catalog|
  {
    AllFromStock(env, r.scope, r.client, |p.jobs|, p.entries, rows) + AllFromCatalog(env, r.client, |p.jobs|, catalog, picks)
  }

  /** The request takes these rows of the stock and these lines of the catalog. */
  ghost predicate Takes(env: Env, p: Pool, r: JobRequest, catalog: seq<string>, rows: seq<nat>, picks: seq<nat>) {
    && AreFirst(rows, OpenRows(p, r.scope), r.candidateCount) && |rows| == Min(r.candidateCount, |OpenRows(p, r.scope)|)
    && (forall k | 0 <= k < |rows| :: rows[k] < |p.entries|)
    && (forall k | 0 <= k < |picks| :: picks[k] < |catalog|)
    && var issued := Digests(p.reservations + AllFromStock(env, r.scope, r.client, |p.jobs|, p.entries, rows));
       && AreFirst(picks, FreshLines(env, issued, catalog), CatalogLimit(r, |rows|))
       && |picks| == Min(CatalogLimit(r, |rows|), |FreshDigests(env, issued, catalog)|)
  }

  /** The tables afterwards. */
  ghost predicate Creates(env: Env, p: Pool, r: JobRequest, catalog: seq<string>, autoGenerate: bool, brokered: bool,
                          rows: seq<nat>, picks: seq<nat>, q: Pool)
    requires Takes(env, p, r, catalog, rows, picks)
  {
    var n := |rows| + |picks|;
    && q.jobs == p.jobs + [Job(r.client, r.scope, r.requestedCount, r.candidateCount, n, NewStatus(n, r.candidateCount, autoGenerate))]
    && q.reservations == p.reservations + Given(env, p, r, catalog, rows, picks)
    && RowsIssued(env, r.scope, r.client, p.entries, q.entries, rows)
    && q.targets ==
         (if autoGenerate && brokered && n < r.candidateCount && (forall t | 0 <= t < |p.targets| :: p.targets[t].scope != r.scope)
          then p.targets + [Target(r.scope, 1000, 200, true, false, None)] else p.targets)
  }

  /** The pool with the new job, still empty. */
  function WithNewJob(p: Pool, r: JobRequest): Pool {
    p.(jobs := p.jobs + [Job(r.client, r.scope, r.requestedCount, r.candidateCount, 0, Queued)])
  }

  lemma ReserveGives(env: Env, p: Pool, r: JobRequest, rows: seq<nat>)
    requires Sound(env, p) && ValidRequest(r) && rows == Take(OpenStock(p, r.scope), r.candidateCount)
    ensures (forall k | 0 <= k < |rows| :: rows[k] < |p.entries|)
    ensures AreFirst(rows, OpenRows(p, r.scope), r.candidateCount) && |rows| == Min(r.candidateCount, |OpenRows(p, r.scope)|)
    ensures var a := WithNewJob(p, r);
            var c := Reserve(env, a, |p.jobs|);
            c.Some? ==>
              && c.value == a.(entries := c.value.entries, reservations := c.value.reservations)
              && c.value.reservations == p.reservations + AllFromStock(env, r.scope, r.client, |p.jobs|, p.entries, rows)
              && RowsIssued(env, r.scope, r.client, p.entries, c.value.entries, rows)
    ensures Shortage(WithNewJob(p, r), |p.jobs|) == r.candidateCount
  {
    var a := WithNewJob(p, r);
    OpenStockIsOpen(p, r.scope);
    PrefixIsFirst(OpenStock(p, r.scope), OpenRows(p, r.scope), r.candidateCount);
    CountZero(p.reservations, |p.jobs|);
    assert OpenStock(a, r.scope) == OpenStock(p, r.scope);
    assert Reserve(env, a, |p.jobs|) == IssueAll(env, a, |p.jobs|, rows);
    assert forall i, j | 0 <= i < j < |rows| :: rows[i] < rows[j];
    IssueAllGives(env, a, |p.jobs|, rows);
  }

  lemma {:induction false} CountMine(rs: seq<Reservation>, xs: seq<Reservation>, job: nat)
    requires forall k | 0 <= k < |xs| :: xs[k].job == job
    ensures CountFor(rs + xs, job) == CountFor(rs, job) + |xs|
    decreases |xs|
  {
    if xs == [] {
      assert rs + xs == rs;
    } else {
      var n := |xs| - 1;
      CountMine(rs, xs[..n], job);
      assert rs + xs == (rs + xs[..n]) + [xs[n]];
      CountAppends(rs + xs[..n], xs[n], job);
    }
  }

  /** What the catalog adds to a job that got `n` proxies from the stock. */
  lemma CatalogGives(env: Env, q: Pool, r: JobRequest, job: nat, n: nat, catalog: seq<string>) returns (picks: seq<nat>)
    requires ValidRequest(r) && job < |q.jobs| && n <= r.candidateCount && CountFor(q.reservations, job) == n
    requires q.jobs[job] == Job(r.client, r.scope, r.requestedCount, r.candidateCount, 0, Queued)
    ensures forall k | 0 <= k < |picks| :: picks[k] < |catalog|
    ensures AreFirst(picks, FreshLines(env, Digests(q.reservations), catalog), CatalogLimit(r, n))
    ensures |picks| == Min(CatalogLimit(r, n), |FreshDigests(env, Digests(q.reservations), catalog)|)
    ensures q.reservations + AllFromCatalog(env, r.client, job, catalog, picks) ==
              if n < r.candidateCount && r.scope.region == "" && r.scope.city == ""
              then ReserveStatic(env, q.reservations, r.client, job, Shortage(q, job), catalog)
              else q.reservations
  {
    hide CountFor;
    assert Shortage(q, job) == r.candidateCount - n;
    if n < r.candidateCount && r.scope.region == "" && r.scope.city == "" {
      picks := StaticExactly(env, q.reservations, r.client, job, Shortage(q, job), catalog);
    } else {
      picks := [];
    }
  }

  /** The filled job, from the reservation. */
  lemma FillUnfolds(env: Env, a: Pool, q: Pool, r: JobRequest, n: nat, catalog: seq<string>, autoGenerate: bool)
    requires a.jobs != [] && a.jobs[|a.jobs| - 1] == Job(r.client, r.scope, r.requestedCount, r.candidateCount, 0, Queued)
    requires Reserve(env, a, |a.jobs| - 1) == Some(q) && q.jobs == a.jobs && |q.reservations| == |a.reservations| + n
    ensures var job := |a.jobs| - 1;
            var rs :=
              if n < r.candidateCount && r.scope.region == "" && r.scope.city == ""
              then ReserveStatic(env, q.reservations, r.client, job, Shortage(q, job), catalog)
              else q.reservations;
            var ready := Max(0, |rs| - |a.reservations|);
            FillJob(env, a, job, catalog, autoGenerate) ==
              Some(q.(reservations := rs,
                      jobs := q.jobs[job := q.jobs[job].(readyCount := ready, status := FinalStatus(ready, r.candidateCount, autoGenerate))]))
  {
    hide Reserve, ReserveStatic, Shortage, FinalStatus;
  }

  lemma LateTarget(targets: seq<Target>, fallback: Target)
    ensures WithTarget(targets, fallback) ==
              if forall t | 0 <= t < |targets| :: targets[t].scope != fallback.scope then targets + [fallback] else targets
  {
  }

  /** The job with `n` proxies. */
  function FilledJob(r: JobRequest, n: nat, autoGenerate: bool): Job {
    Job(r.client, r.scope, r.requestedCount, r.candidateCount, n, NewStatus(n, r.candidateCount, autoGenerate))
  }

  lemma FillNeedsReserve(env: Env, a: Pool, job: nat, catalog: seq<string>, autoGenerate: bool)
    requires job < |a.jobs|
    ensures FillJob(env, a, job, catalog, autoGenerate).Some? <==> Reserve(env, a, job).Some?
  {
    hide Reserve, ReserveStatic, Shortage, FinalStatus;
  }

  lemma StatusAgrees(n: nat, candidates: nat, autoGenerate: bool)
    requires n <= candidates && 0 < candidates
    ensures FinalStatus(n, candidates, autoGenerate) == NewStatus(n, candidates, autoGenerate)
  {
  }

  /** The filled job, once its reservations are known. */
  lemma FillIs(env: Env, a: Pool, q: Pool, r: JobRequest, catalog: seq<string>, autoGenerate: bool,
               mine: seq<Reservation>, more: seq<Reservation>,
               n: nat, rs: seq<Reservation>)
    requires ValidRequest(r) && n == |mine| + |more| <= r.candidateCount && rs == a.reservations + (mine + more)
    requires a.jobs != [] && a.jobs[|a.jobs| - 1] == Job(r.client, r.scope, r.requestedCount, r.candidateCount, 0, Queued)
    requires Reserve(env, a, |a.jobs| - 1) == Some(q) && q.jobs == a.jobs && q.reservations == a.reservations + mine
    requires q.reservations + more ==
               if |mine| < r.candidateCount && r.scope.region == "" && r.scope.city == ""
               then ReserveStatic(env, q.reservations, r.client, |a.jobs| - 1, Shortage(q, |a.jobs| - 1), catalog)
               else q.reservations
    ensures var job := |a.jobs| - 1;
            FillJob(env, a, job, catalog, autoGenerate) == Some(q.(reservations := rs, jobs := q.jobs[job := FilledJob(r, n, autoGenerate)]))
  {
    hide Reserve, ReserveStatic, Shortage, FillJob, FinalStatus, NewStatus;
    FillUnfolds(env, a, q, r, |mine|, catalog, autoGenerate);
    StatusAgrees(|mine| + |more|, r.candidateCount, autoGenerate);
    assert a.reservations + (mine + more) == q.reservations + more;
  }

  lemma FoldTakes(env: Env, p: Pool, r: JobRequest, catalog: seq<string>, rows: seq<nat>, picks: seq<nat>, rs: seq<Reservation>)
    requires AreFirst(rows, OpenRows(p, r.scope), r.candidateCount) && |rows| == Min(r.candidateCount, |OpenRows(p, r.scope)|)
    requires (forall k | 0 <= k < |rows| :: rows[k] < |p.entries|) && forall k | 0 <= k < |picks| :: picks[k] < |catalog|
    requires rs == p.reservations + AllFromStock(env, r.scope, r.client, |p.jobs|, p.entries, rows)
    requires AreFirst(picks, FreshLines(env, Digests(rs), catalog), CatalogLimit(r, |rows|))
    requires |picks| == Min(CatalogLimit(r, |rows|), |FreshDigests(env, Digests(rs), catalog)|)
    ensures Takes(env, p, r, catalog, rows, picks) && |rows| + |picks| <= r.candidateCount
  {
    hide AllFromStock, FreshLines, FreshDigests, Digests, AreFirst, OpenRows;
  }

  /** The reservations that a filled job is given, and the pool after those from the stock. */
  lemma FillParts(env: Env, p: Pool, r: JobRequest, catalog: seq<string>) returns (rows: seq<nat>, picks: seq<nat>, q: Pool)
    requires Sound(env, p) && ValidRequest(r) && Reserve(env, WithNewJob(p, r), |p.jobs|).Some?
    ensures Takes(env, p, r, catalog, rows, picks) && |rows| + |picks| <= r.candidateCount
    ensures Reserve(env, WithNewJob(p, r), |p.jobs|) == Some(q)
    ensures q == WithNewJob(p, r).(entries := q.entries, reservations := q.reservations)
    ensures q.reservations == p.reservations + AllFromStock(env, r.scope, r.client, |p.jobs|, p.entries, rows)
    ensures RowsIssued(env, r.scope, r.client, p.entries, q.entries, rows)
    ensures q.reservations + AllFromCatalog(env, r.client, |p.jobs|, catalog, picks) ==
              if |rows| < r.candidateCount && r.scope.region == "" && r.scope.city == ""
              then ReserveStatic(env, q.reservations, r.client, |p.jobs|, Shortage(q, |p.jobs|), catalog)
              else q.reservations
  {
    rows := Take(OpenStock(p, r.scope), r.candidateCount);
    assert forall k | 0 <= k < |p.reservations| :: p.reservations[k].job < |p.jobs|;
    hide Sound, Reserve, ReserveStatic, OpenStock, AreFirst, FreshLines, FreshDigests, Digests, RowsIssued, Shortage,
         OpenRows, CountFor, Takes, Take,
         AllFromStock, AllFromCatalog;
    ReserveGives(env, p, r, rows);
    q := Reserve(env, WithNewJob(p, r), |p.jobs|).value;
    CountNew(env, p, r, rows);
    picks := CatalogGives(env, q, r, |p.jobs|, |rows|, catalog);
    FoldTakes(env, p, r, catalog, rows, picks, q.reservations);
  }

  lemma GivenSizes(env: Env, p: Pool, r: JobRequest, catalog: seq<string>, rows: seq<nat>, picks: seq<nat>,
                   mine: seq<Reservation>, more: seq<Reservation>)
    requires Takes(env, p, r, catalog, rows, picks)
    requires mine == AllFromStock(env, r.scope, r.client, |p.jobs|, p.entries, rows) && more == AllFromCatalog(env, r.client, |p.jobs|, catalog, picks)
    ensures |mine| == |rows| && |more| == |picks| && mine + more == Given(env, p, r, catalog, rows, picks)
  {
    hide AreFirst;
  }

  lemma NewJobFilled(p: Pool, q: Pool, r: JobRequest, job: Job, entries: seq<Entry>, rs: seq<Reservation>)
    requires q == WithNewJob(p, r).(entries := entries, reservations := q.reservations)
    ensures |q.jobs| == |p.jobs| + 1
    ensures q.(reservations := rs, jobs := q.jobs[|p.jobs| := job]) == p.(entries := entries, reservations := rs, jobs := p.jobs + [job])
  {
  }

  lemma NewJobIsLast(p: Pool, r: JobRequest)
    ensures var a := WithNewJob(p, r);
            && |a.jobs| == |p.jobs| + 1 && a.jobs[|p.jobs|] == Job(r.client, r.scope, r.requestedCount, r.candidateCount, 0, Queued)
            && a.reservations == p.reservations && a.entries == p.entries
  {
  }

  lemma TakenInRange(env: Env, p: Pool, r: JobRequest, catalog: seq<string>, rows: seq<nat>, picks: seq<nat>)
    requires Takes(env, p, r, catalog, rows, picks)
    ensures (forall k | 0 <= k < |rows| :: rows[k] < |p.entries|) && forall k | 0 <= k < |picks| :: picks[k] < |catalog|
  {
    hide AreFirst;
  }

  lemma FillGives(env: Env, p: Pool, r: JobRequest, catalog: seq<string>,
                  autoGenerate: bool) returns (rows: seq<nat>, picks: seq<nat>)
    requires Sound(env, p) && ValidRequest(r) && FillJob(env, WithNewJob(p, r), |p.jobs|, catalog, autoGenerate).Some?
    ensures Takes(env, p, r, catalog, rows, picks)
    ensures var f := FillJob(env, WithNewJob(p, r), |p.jobs|, catalog, autoGenerate).value;
            && f == p.(entries := f.entries, reservations := p.reservations + Given(env, p, r, catalog, rows, picks),
                       jobs := p.jobs + [FilledJob(r, |rows| + |picks|, autoGenerate)])
            && RowsIssued(env, r.scope, r.client, p.entries, f.entries, rows)
  {
    var a, job := WithNewJob(p, r), |p.jobs|;
    NewJobIsLast(p, r);
    hide *;
    FillNeedsReserve(env, a, job, catalog, autoGenerate);
    var q;
    rows, picks, q := FillParts(env, p, r, catalog);
    TakenInRange(env, p, r, catalog, rows, picks);
    var mine, more := AllFromStock(env, r.scope, r.client, job, p.entries, rows), AllFromCatalog(env, r.client, job, catalog, picks);
    GivenSizes(env, p, r, catalog, rows, picks, mine, more);
    var n, rs := |rows| + |picks|, p.reservations + Given(env, p, r, catalog, rows, picks);
    FillIs(env, a, q, r, catalog, autoGenerate, mine, more, n, rs);
    NewJobFilled(p, q, r, FilledJob(r, n, autoGenerate), q.entries, rs);
  }

  lemma CountNew(env: Env, p: Pool, r: JobRequest, rows: seq<nat>)
    requires forall k | 0 <= k < |p.reservations| :: p.reservations[k].job < |p.jobs|
    requires forall k | 0 <= k < |rows| :: rows[k] < |p.entries|
    ensures CountFor(p.reservations + AllFromStock(env, r.scope, r.client, |p.jobs|, p.entries, rows), |p.jobs|) == |rows|
  {
    CountZero(p.reservations, |p.jobs|);
    CountMine(p.reservations, AllFromStock(env, r.scope, r.client, |p.jobs|, p.entries, rows), |p.jobs|);
  }

  /** What a job creation on the inventory it finds amounts to. */
  lemma CreateOnGives(env: Env, p: Pool, r: JobRequest, catalog: seq<string>, autoGenerate: bool, brokered: bool)
      returns (rows: seq<nat>, picks: seq<nat>)
    requires Sound(env, p) && ValidRequest(r) && CreateOn(env, p, r, catalog, autoGenerate, brokered).Some?
    ensures Takes(env, p, r, catalog, rows, picks)
    ensures Creates(env, p, r, catalog, autoGenerate, brokered, rows, picks, CreateOn(env, p, r, catalog, autoGenerate, brokered).value)
  {
    hide Sound, FillJob, Takes, RowsIssued, WithTarget;
    rows, picks := FillGives(env, p, r, catalog, autoGenerate);
    LateTarget(p.targets, Target(r.scope, 1000, 200, true, false, None));
  }

  /** The oldest rows open to a request. */
  ghost predicate AreOldest(p: Pool, r: JobRequest, rows: seq<nat>) {
    AreFirst(rows, OpenRows(p, r.scope), r.candidateCount) && forall k :: 0 <= k < |rows| ==> rows[k] < |p.entries|
  }

  /** The rows of an open stock are available, in order. */
  lemma TakenStock(p: Pool, r: JobRequest, rows: seq<nat>)
    requires rows == Take(OpenStock(p, r.scope), r.candidateCount)
    ensures forall i :: 0 <= i < |rows| ==> rows[i] < |p.entries| && p.entries[rows[i]].state == Available
    ensures forall i, j :: 0 <= i < j < |rows| ==> rows[i] < rows[j]
    ensures AreOldest(p, r, rows)
  {
    OpenStockIsOpen(p, r.scope);
    PrefixIsFirst(OpenStock(p, r.scope), OpenRows(p, r.scope), r.candidateCount);
    hide OpenStock, AreFirst;
    forall i | 0 <= i < |rows| ensures rows[i] in OpenRows(p, r.scope) {
      assert rows[i] in OpenStock(p, r.scope);
    }
  }

  lemma ReserveIssues(env: Env, p: Pool, r: JobRequest, rows: seq<nat>)
    requires rows == Take(OpenStock(p, r.scope), r.candidateCount) && Shortage(WithNewJob(p, r), |p.jobs|) == r.candidateCount
    requires forall i :: 0 <= i < |rows| ==> rows[i] < |p.entries|
    ensures var a := WithNewJob(p, r);
            && |p.jobs| < |a.jobs| && a.jobs[|p.jobs|].scope == r.scope && a.entries == p.entries && a.reservations == p.reservations
            && Reserve(env, a, |p.jobs|) == IssueAll(env, a, |p.jobs|, rows)
  {
    assert OpenStock(WithNewJob(p, r), r.scope) == OpenStock(p, r.scope);
    hide OpenStock, IssueAll, Shortage;
  }

  lemma CreateNeedsFill(env: Env, p: Pool, r: JobRequest, catalog: seq<string>, autoGenerate: bool, brokered: bool)
    ensures CreateOn(env, p, r, catalog, autoGenerate, brokered).Some? <==>
              FillJob(env, WithNewJob(p, r), |p.jobs|, catalog, autoGenerate).Some?
  {
    hide FillJob;
  }

  lemma NewJobIsSound(env: Env, p: Pool, r: JobRequest)
    requires Sound(env, p)
    ensures Sound(env, WithNewJob(p, r))
  {
    NewJobIsGood(env, p, CreatedJob(r));
    hide Sound, Extends;
  }

  lemma CreatesExactly(env: Env, p: Pool, r: JobRequest, catalog: seq<string>, autoGenerate: bool,
                       brokered: bool) returns (rows: seq<nat>)
    requires Sound(env, p) && ValidRequest(r)
    ensures AreOldest(p, r, rows) && forall k :: 0 <= k < |rows| ==> rows[k] < |p.entries|
    ensures CreateOn(env, p, r, catalog, autoGenerate, brokered).Some? <==> Issuable(env, p, r.scope, rows)
  {
    var a, job := WithNewJob(p, r), |p.jobs|;
    rows := Take(OpenStock(p, r.scope), r.candidateCount);
    hide *;
    TakenStock(p, r, rows);
    NewJobIsSound(env, p, r);
    ReserveGives(env, p, r, rows);
    ReserveIssues(env, p, r, rows);
    CreateNeedsFill(env, p, r, catalog, autoGenerate, brokered);
    FillNeedsReserve(env, a, job, catalog, autoGenerate);
    IssueAllExactly(env, a, job, rows);
    SameRowsIssuable(env, a, p, r.scope, rows);
  }

  // ------------------------------------------------------------------ main results

  lemma NoGenerator(env: Env, p: Pool, r: JobRequest, supply: Option<seq<string>>, catalog: seq<string>,
                    autoGenerate: bool, brokered: bool)
    requires r.scope.provider != "P1" && r.scope.provider != "P2" && r.scope.provider != "P3"
    ensures CreateJob(env, p, r, supply, catalog, autoGenerate, brokered) == CreateOn(env, p, r, catalog, autoGenerate, brokered)
  {
    hide CreateOn, EnsureInventory;
  }

  /** After any run, a request that no generator serves is given the oldest open stock of its
      scope and then, unless it names a region or a city, the first catalog lines that are not
      issued by then, as many as it still needs and there are new digests.  The job, its
      status, its reservations and every other row are exactly these. */
  lemma StaticCreation(env: Env, ops: seq<Op>, r: JobRequest, supply: Option<seq<string>>, catalog: seq<string>,
                       autoGenerate: bool, brokered: bool)
    requires Legal(env, Empty, ops) && ValidRequest(r)
    requires r.scope.provider != "P1" && r.scope.provider != "P2" && r.scope.provider != "P3"
    ensures var p := Run(env, Empty, ops);
            var c := CreateJob(env, p, r, supply, catalog, autoGenerate, brokered);
            c.Some? ==>
              exists rows, picks ::
                Takes(env, p, r, catalog, rows, picks) && Creates(env, p, r, catalog, autoGenerate, brokered, rows, picks, c.value)
  {
    RunIsGood(env, Empty, ops);
    var p := Run(env, Empty, ops);
    hide Run, Legal, Extends, CreateOn, CreateJob, Takes, Creates;
    NoGenerator(env, p, r, supply, catalog, autoGenerate, brokered);
    if CreateOn(env, p, r, catalog, autoGenerate, brokered).Some? {
      hide Sound;
      var rows, picks := CreateOnGives(env, p, r, catalog, autoGenerate, brokered);
    }
  }

  /** Such a request succeeds exactly when the rows it takes can be issued in turn. */
  lemma StaticCreationSucceeds(env: Env, ops: seq<Op>, r: JobRequest, supply: Option<seq<string>>, catalog: seq<string>,
                               autoGenerate: bool, brokered: bool)
    requires Legal(env, Empty, ops) && ValidRequest(r)
    requires r.scope.provider != "P1" && r.scope.provider != "P2" && r.scope.provider != "P3"
    ensures var p := Run(env, Empty, ops);
            exists rows ::
              AreOldest(p, r, rows) &&
              (CreateJob(env, p, r, supply, catalog, autoGenerate, brokered).Some? <==> Issuable(env, p, r.scope, rows))
  {
    RunIsGood(env, Empty, ops);
    var p := Run(env, Empty, ops);
    hide Run, Legal, Extends, CreateOn, CreateJob, AreOldest, Issuable;
    NoGenerator(env, p, r, supply, catalog, autoGenerate, brokered);
    hide Sound;
    var rows := CreatesExactly(env, p, r, catalog, autoGenerate, brokered);
  }
}