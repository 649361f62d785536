/** The lines a target has in stock and the lines a job was given, and how serving moves them. */
module ProxyPoolLines {
  import opened Wrappers
  import opened Sequences
  import opened ProxyPool
  import opened ProxyPoolFacts
  import opened ProxyPoolFulfillment

  /** The lines in stock for a target, oldest first. */
  function StockLines(es: seq<Entry>, t: nat): (lines: seq<string>)
    ensures |lines| == AvailableCount(es, t)
  {
    StockInRange(es, {t}, |es|);
    var ids := AvailableIds(es, t);
    seq(|ids|, i requires 0 <= i < |ids| => es[ids[i]].line)
  }

  /** The lines reserved for a job, oldest first. */
  function LinesFor(rs: seq<Reservation>, job: nat): seq<string> {
    if rs == [] then []
    else LinesFor(rs[..|rs| - 1], job) + (if rs[|rs| - 1].job == job then [rs[|rs| - 1].line] else [])
  }

  function RepairedLines(env: Env, scope: Scope, lines: seq<string>): seq<string> {
    seq(|lines|, i requires 0 <= i < |lines| => env.repair(scope, lines[i]))
  }

  lemma LinesForAppends(rs: seq<Reservation>, x: Reservation, job: nat)
    ensures LinesFor(rs + [x], job) == LinesFor(rs, job) + (if x.job == job then [x.line] else [])
  {
    assert (rs + [x])[..|rs|] == rs;
  }

  /** Reservations of other jobs add nothing. */
  lemma {:induction false} LinesForOthers(rs: seq<Reservation>, qs: seq<Reservation>, job: nat)
    requires |rs| <= |qs| && qs[..|rs|] == rs && forall k | |rs| <= k < |qs| :: qs[k].job != job
    ensures LinesFor(qs, job) == LinesFor(rs, job)
    decreases |qs|
  {
    if |qs| > |rs| {
      var n := |qs| - 1;
      assert qs[..n][..|rs|] == rs;
      LinesForOthers(rs, qs[..n], job);
    } else {
      assert qs == rs;
    }
  }

  lemma IssueOneLine(env: Env, p: Pool, job: nat, id: nat)
    requires job < |p.jobs| && id < |p.entries|
    ensures var r := IssueOne(env, p, job, id);
            r.Some? ==>
              && r.value.jobs == p.jobs && |r.value.entries| == |p.entries|
              && (forall i | 0 <= i < |p.entries| && i != id :: r.value.entries[i] == p.entries[i])
              && LinesFor(r.value.reservations, job) == LinesFor(p.reservations, job) + [env.repair(p.jobs[job].scope, p.entries[id].line)]
  {
    var r := IssueOne(env, p, job, id);
    if r.Some? {
      LinesForAppends(p.reservations, r.value.reservations[|p.reservations|], job);
    }
  }

  /** A job is given the lines of its entries as repaired, in order. */
  lemma {:induction false} IssueAllLines(env: Env, p: Pool, job: nat, ids: seq<nat>, lines: seq<string>)
    requires job < |p.jobs| && |lines| == |ids|
    requires forall i :: 0 <= i < |ids| ==> ids[i] < |p.entries| && p.entries[ids[i]].line == lines[i]
    requires forall i, j :: 0 <= i < j < |ids| ==> ids[i] < ids[j]
    ensures var r := IssueAll(env, p, job, ids);
            r.Some? ==> LinesFor(r.value.reservations, job) == LinesFor(p.reservations, job) + RepairedLines(env, p.jobs[job].scope, lines)
    decreases |ids|
  {
    if ids != [] {
      IssueOneLine(env, p, job, ids[0]);
      var r := IssueOne(env, p, job, ids[0]);
      hide IssueOne, LinesFor;
      if r.Some? {
        IssueAllLines(env, r.value, job, ids[1..], lines[1..]);
        assert RepairedLines(env, p.jobs[job].scope, lines) ==
               [env.repair(p.jobs[job].scope, lines[0])] + RepairedLines(env, p.jobs[job].scope, lines[1..]);
      }
    }
  }

  lemma StockLinesDrop(es: seq<Entry>, fs: seq<Entry>, t: nat, k: nat)
    requires k <= AvailableCount(es, t) && |fs| == |es| && AvailableIds(fs, t) == AvailableIds(es, t)[k..]
    requires forall i | 0 <= i < |es| && i !in AvailableIds(es, t)[..k] :: fs[i] == es[i]
    ensures StockLines(fs, t) == StockLines(es, t)[k..]
  {
    StockInRange(es, {t}, |es|);
    StockComplete(es, {t}, |es|);
    var ids := AvailableIds(es, t);
    hide Stock;
    forall i | k <= i < |ids| ensures fs[ids[i]] == es[ids[i]] {
      assert ids[i] !in ids[..k];
    }
  }

  /** Serving a job hands it the oldest lines in stock, repaired, and leaves the rest. */
  lemma ServeLines(env: Env, p: Pool, t: nat, h: nat)
    requires UniqueScopes(p.targets) && t < |p.targets| && p.targets[t].active
    requires h < |p.jobs| && p.jobs[h].scope == p.targets[t].scope
    ensures var r, k := Serve(env, p, h), Min(Shortage(p, h), AvailableCount(p.entries, t));
            r.Some? ==>
              && StockLines(r.value.entries, t) == StockLines(p.entries, t)[k..]
              && LinesFor(r.value.reservations, h) ==
                   LinesFor(p.reservations, h) + RepairedLines(env, p.targets[t].scope, StockLines(p.entries, t)[..k])
  {
    var k := Min(Shortage(p, h), AvailableCount(p.entries, t));
    var ids := AvailableIds(p.entries, t)[..k];
    var lines := StockLines(p.entries, t)[..k];
    FirstLines(p.entries, t, k, ids, lines);
    ReserveIsIssue(env, p, t, h, ids);
    hide Stock, IssueAll, Shortage, Reserve, LinesFor, StockLines, RepairedLines, UniqueScopes;
    ServeTakesOldest(env, p, t, h);
    IssueAllLines(env, p, h, ids, lines);
    IssueAllOthers(env, p, h, ids, h + 1);
    IssueAllFrame(env, p, h, ids);
    var q := IssueAll(env, p, h, ids);
    if q.Some? {
      assert Serve(env, p, h) == Some(Recount(q.value, h));
      StockLinesDrop(p.entries, q.value.entries, t, k);
    }
  }

  lemma FirstLines(es: seq<Entry>, t: nat, k: nat, ids: seq<nat>, lines: seq<string>)
    requires k <= AvailableCount(es, t) && ids == AvailableIds(es, t)[..k] && lines == StockLines(es, t)[..k]
    ensures |lines| == |ids| == k && forall i :: 0 <= i < |ids| ==> ids[i] < |es| && es[ids[i]].line == lines[i]
    ensures forall i, j :: 0 <= i < j < |ids| ==> ids[i] < ids[j]
  {
    StockInRange(es, {t}, |es|);
    StockComplete(es, {t}, |es|);
    hide Stock;
  }

  lemma ReserveIsIssue(env: Env, p: Pool, t: nat, h: nat, ids: seq<nat>)
    requires UniqueScopes(p.targets) && t < |p.targets| && p.targets[t].active && h < |p.jobs| && p.jobs[h].scope == p.targets[t].scope
    requires ids == AvailableIds(p.entries, t)[..Min(Shortage(p, h), AvailableCount(p.entries, t))]
    requires forall i :: 0 <= i < |ids| ==> ids[i] < |p.entries|
    ensures Reserve(env, p, h) == IssueAll(env, p, h, ids)
  {
    OpenStockOfTarget(p, t);
    hide Stock, IssueAll, Shortage, UniqueScopes;
    assert ids == Take(AvailableIds(p.entries, t), Shortage(p, h));
  }

  /** Serving a job gives nothing to the others. */
  lemma ServeLinesOthers(env: Env, p: Pool, h: nat, j: nat)
    requires h < |p.jobs| && j != h
    ensures var r := Serve(env, p, h); r.Some? ==> LinesFor(r.value.reservations, j) == LinesFor(p.reservations, j)
  {
    ServeLeavesOthers(env, p, h, j);
    var r := Serve(env, p, h);
    if r.Some? {
      LinesForOthers(p.reservations, r.value.reservations, j);
    }
  }
}
