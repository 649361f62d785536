/** When refills complete: as long as no repair of a line of one target runs into a line of
    another, whether they all complete does not depend on their order or on the batch size. */
module ProxyPrefillCompletion {
  import opened Wrappers
  import opened Sequences
  import opened ProxyPool
  import opened ProxyPoolFacts
  import opened ProxyPoolFulfillment
  import opened ProxyPrefill
  import opened ProxyPrefillRefinement
  import opened ProxyPoolSound
  import opened ProxyPoolRuns
  import opened ProxyPoolStock
  import opened ProxyPoolDemand
  import opened ProxyPrefillOrder

  // ------------------------------------------------------------------ twin stocks

  /** A live row outside `ids` has the fingerprint. */
  ghost predicate Outside(es: seq<Entry>, ids: seq<nat>, fingerprint: string) {
    exists i: nat :: i < |es| && i !in ids && Live(es[i]) && es[i].fingerprint == fingerprint
  }

  /** The rows `a` of `p` and `b` of `q` are the same, in the same order, with the digests of
      their lines, and what each is issued
      with for the scope is taken in both pools or in neither. */
  ghost predicate Twins(env: Env, p: Pool, q: Pool, scope: Scope, a: seq<nat>, b: seq<nat>) {
    && |a| == |b|
    && (forall k | 0 <= k < |a| ::
          && a[k] < |p.entries| && b[k] < |q.entries|
          && p.entries[a[k]] == q.entries[b[k]] && p.entries[a[k]].state == Available
          && p.entries[a[k]].fingerprint == env.digest(p.entries[a[k]].line))
    && (forall j, k | 0 <= j < k < |a| :: a[j] != a[k] && b[j] != b[k])
    && (forall k | 0 <= k < |a| ::
          var fingerprint := IssuedAs(env, scope, p.entries[a[k]].line);
          && (Outside(p.entries, a, fingerprint) <==> Outside(q.entries, b, fingerprint))
          && (FingerprintIssued(p.reservations, fingerprint) <==> FingerprintIssued(q.reservations, fingerprint)))
  }

  /** Another live row has the fingerprint: one outside `ids`, or a later one of `ids`. */
  lemma UsedElsewhere(es: seq<Entry>, ids: seq<nat>, fingerprint: string)
    requires ids != [] && forall k | 0 <= k < |ids| :: ids[k] < |es| && es[ids[k]].state == Available
    requires forall k | 1 <= k < |ids| :: ids[k] != ids[0]
    ensures FingerprintUsed(es, fingerprint, ids[0]) <==>
              Outside(es, ids, fingerprint) || exists k :: 1 <= k < |ids| && es[ids[k]].fingerprint == fingerprint
  {
    if i: nat :| i < |es| && i != ids[0] && Live(es[i]) && es[i].fingerprint == fingerprint {
      if i in ids {
        var k :| 0 <= k < |ids| && ids[k] == i;
      }
    }
    if k :| 1 <= k < |ids| && es[ids[k]].fingerprint == fingerprint {
      assert ids[k] != ids[0];
    }
  }

  /** Once the first row is issued, its new fingerprint lies outside the rest. */
  lemma OutsideAfterIssue(es: seq<Entry>, fs: seq<Entry>, ids: seq<nat>, fingerprint: string)
    requires ids != [] && (forall k | 0 <= k < |ids| :: ids[k] < |es|) && |fs| == |es|
    requires (forall k | 1 <= k < |ids| :: ids[k] != ids[0]) && fs == es[ids[0] := fs[ids[0]]] && Live(fs[ids[0]])
    ensures Outside(fs, ids[1..], fingerprint) <==> Outside(es, ids, fingerprint) || fs[ids[0]].fingerprint == fingerprint
  {
    assert forall x :: x in ids <==> x == ids[0] || x in ids[1..];
    if fs[ids[0]].fingerprint == fingerprint {
      assert ids[0] !in ids[1..];
    }
    if Outside(es, ids, fingerprint) {
      var i: nat :| i < |es| && i !in ids && Live(es[i]) && es[i].fingerprint == fingerprint;
      assert fs[i] == es[i] && i !in ids[1..];
    }
    if Outside(fs, ids[1..], fingerprint) {
      var i: nat :| i < |fs| && i !in ids[1..] && Live(fs[i]) && fs[i].fingerprint == fingerprint;
      assert i != ids[0] ==> fs[i] == es[i] && i !in ids;
    }
  }

  lemma IssuedAfter(rs: seq<Reservation>, x: Reservation, fingerprint: string)
    ensures FingerprintIssued(rs + [x], fingerprint) <==> FingerprintIssued(rs, fingerprint) || x.fingerprint == fingerprint
  {
    assert (rs + [x])[|rs|] == x;
    if i: nat :| i < |rs| && rs[i].fingerprint == fingerprint {
      assert (rs + [x])[i] == rs[i];
    }
  }

  lemma IssueOneTwins(env: Env, p: Pool, q: Pool, job: nat, a: seq<nat>, b: seq<nat>)
    requires job < |p.jobs| && job < |q.jobs| && q.jobs[job].scope == p.jobs[job].scope && a != []
    requires Twins(env, p, q, p.jobs[job].scope, a, b)
    ensures b != [] && a[0] < |p.entries| && b[0] < |q.entries|
    ensures var x, y := IssueOne(env, p, job, a[0]), IssueOne(env, q, job, b[0]);
            x.Some? == y.Some? &&
            (x.Some? ==> x.value.jobs == p.jobs && y.value.jobs == q.jobs && Twins(env, x.value, y.value, p.jobs[job].scope, a[1..], b[1..]))
  {
    var scope, e := p.jobs[job].scope, p.entries[a[0]];
    var f := IssuedAs(env, scope, e.line);
    UsedElsewhere(p.entries, a, f);
    UsedElsewhere(q.entries, b, f);
    assert (exists k :: 1 <= k < |a| && p.entries[a[k]].fingerprint == f) <==> (exists k :: 1 <= k < |b| && q.entries[b[k]].fingerprint == f) by {
      if k :| 1 <= k < |a| && p.entries[a[k]].fingerprint == f {
        assert q.entries[b[k]].fingerprint == f;
      }
      if k :| 1 <= k < |b| && q.entries[b[k]].fingerprint == f {
        assert p.entries[a[k]].fingerprint == f;
      }
    }
    assert FingerprintUsed(p.entries, f, a[0]) <==> FingerprintUsed(q.entries, f, b[0]);
    hide FingerprintUsed, Outside;
    FirstFingerprint(env, p, q, job, a, b);
    var x, y := IssueOne(env, p, job, a[0]), IssueOne(env, q, job, b[0]);
    if x.Some? {
      hide IssueOne, FingerprintIssued, IssuedAs;
      TwinsRest(env, p, q, x.value, y.value, scope, a, b, f);
    }
  }

  /** What issuing row `id` as `f` does to the tables. */
  ghost predicate Issues(p: Pool, x: Pool, id: nat, f: string) {
    && id < |p.entries| == |x.entries| && x.jobs == p.jobs && |x.reservations| == |p.reservations| + 1
    && x.entries == p.entries[id := x.entries[id]] && Live(x.entries[id]) && x.entries[id].fingerprint == f
    && x.reservations == p.reservations + [x.reservations[|p.reservations|]]
    && x.reservations[|p.reservations|].fingerprint == f
  }

  lemma TakenAfter(p: Pool, x: Pool, ids: seq<nat>, f: string, h: string)
    requires ids != [] && (forall k | 0 <= k < |ids| :: ids[k] < |p.entries|) && (forall k | 1 <= k < |ids| :: ids[k] != ids[0])
    requires Issues(p, x, ids[0], f)
    ensures Outside(x.entries, ids[1..], h) <==> Outside(p.entries, ids, h) || f == h
    ensures FingerprintIssued(x.reservations, h) <==> FingerprintIssued(p.reservations, h) || f == h
  {
    hide Outside, FingerprintIssued;
    OutsideAfterIssue(p.entries, x.entries, ids, h);
    IssuedAfter(p.reservations, x.reservations[|p.reservations|], h);
  }

  lemma TwinsRest(env: Env, p: Pool, q: Pool, x: Pool, y: Pool, scope: Scope, a: seq<nat>, b: seq<nat>, f: string)
    requires a != [] && Twins(env, p, q, scope, a, b) && Issues(p, x, a[0], f) && Issues(q, y, b[0], f)
    ensures Twins(env, x, y, scope, a[1..], b[1..])
  {
    hide Outside, FingerprintIssued, IssuedAs;
    forall k | 0 <= k < |a[1..]|
      ensures x.entries[a[1..][k]] == p.entries[a[k + 1]] && y.entries[b[1..][k]] == q.entries[b[k + 1]]
      ensures var h := IssuedAs(env, scope, x.entries[a[1..][k]].line);
              && (Outside(x.entries, a[1..], h) <==> Outside(y.entries, b[1..], h))
              && (FingerprintIssued(x.reservations, h) <==> FingerprintIssued(y.reservations, h))
    {
      assert a[1..][k] == a[k + 1] != a[0] && b[1..][k] == b[k + 1] != b[0];
      var h := IssuedAs(env, scope, p.entries[a[k + 1]].line);
      TakenAfter(p, x, a, f, h);
      TakenAfter(q, y, b, f, h);
    }
  }

  /** Both issues succeed or fail together and write the same fingerprint. */
  lemma FirstFingerprint(env: Env, p: Pool, q: Pool, job: nat, a: seq<nat>, b: seq<nat>)
    requires job < |p.jobs| && job < |q.jobs| && q.jobs[job].scope == p.jobs[job].scope && a != []
    requires Twins(env, p, q, p.jobs[job].scope, a, b)
    requires var f := IssuedAs(env, p.jobs[job].scope, p.entries[a[0]].line);
             FingerprintUsed(p.entries, f, a[0]) <==> FingerprintUsed(q.entries, f, b[0])
    ensures var x, y := IssueOne(env, p, job, a[0]), IssueOne(env, q, job, b[0]);
            var g := IssuedAs(env, p.jobs[job].scope, p.entries[a[0]].line);
            && x.Some? == y.Some?
            && (x.Some? ==> Issues(p, x.value, a[0], g) && Issues(q, y.value, b[0], g))
  {
    hide FingerprintUsed, Outside;
  }

  lemma SlicesShift(a: seq<nat>, n: nat)
    requires 0 < n <= |a|
    ensures a[..n] != [] && a[..n][0] == a[0] && a[..n][1..] == a[1..][..n - 1] && a[1..][n - 1..] == a[n..]
  {
  }

  lemma {:induction false} IssueAllTwins(env: Env, p: Pool, q: Pool, job: nat, a: seq<nat>, b: seq<nat>, n: nat)
    requires job < |p.jobs| && job < |q.jobs| && q.jobs[job].scope == p.jobs[job].scope && n <= |a|
    requires Twins(env, p, q, p.jobs[job].scope, a, b)
    ensures |a| == |b| && (forall k | 0 <= k < |a| :: a[k] < |p.entries| && b[k] < |q.entries|)
    ensures var x, y := IssueAll(env, p, job, a[..n]), IssueAll(env, q, job, b[..n]);
            x.Some? == y.Some? &&
            (x.Some? ==> Twins(env, x.value, y.value, p.jobs[job].scope, a[n..], b[n..]))
    decreases n
  {
    hide *;
    TwinsInRange(env, p, q, p.jobs[job].scope, a, b);
    if n == 0 {
      assert a[..0] == [] && b[..0] == [] && a[0..] == a && b[0..] == b;
      IssueNothing(env, p, job);
      IssueNothing(env, q, job);
    } else {
      SlicesShift(a, n);
      SlicesShift(b, n);
      IssueOneTwins(env, p, q, job, a, b);
      IssueAllUnfolds(env, p, job, a[..n]);
      IssueAllUnfolds(env, q, job, b[..n]);
      var x, y := IssueOne(env, p, job, a[0]), IssueOne(env, q, job, b[0]);
      if x.Some? {
        IssueAllTwins(env, x.value, y.value, job, a[1..], b[1..], n - 1);
      }
    }
  }

  lemma TwinsInRange(env: Env, p: Pool, q: Pool, scope: Scope, a: seq<nat>, b: seq<nat>)
    requires Twins(env, p, q, scope, a, b)
    ensures |a| == |b| && (forall k | 0 <= k < |a| :: a[k] < |p.entries| && b[k] < |q.entries|)
  {
  }

  lemma IssueNothing(env: Env, p: Pool, job: nat)
    requires job < |p.jobs|
    ensures IssueAll(env, p, job, []) == Some(p)
  {
  }

  lemma IssueAllUnfolds(env: Env, p: Pool, job: nat, ids: seq<nat>)
    requires job < |p.jobs| && ids != [] && forall i :: 0 <= i < |ids| ==> ids[i] < |p.entries|
    ensures var r := IssueOne(env, p, job, ids[0]);
            if r.None? then IssueAll(env, p, job, ids).None?
            else job < |r.value.jobs| && |r.value.entries| == |p.entries| && IssueAll(env, p, job, ids) == IssueAll(env, r.value, job, ids[1..])
  {
  }

  /** The stocks of target `t` are twins. */
  ghost predicate TwinStocks(env: Env, p: Pool, q: Pool, t: nat)
    requires t < |p.targets|
  {
    Twins(env, p, q, p.targets[t].scope, AvailableIds(p.entries, t), AvailableIds(q.entries, t))
  }

  lemma SameRowsTwins(env: Env, p: Pool, q: Pool, x: Pool, y: Pool, scope: Scope, a: seq<nat>, b: seq<nat>)
    requires Twins(env, p, q, scope, a, b)
    requires x.entries == p.entries && y.entries == q.entries && x.reservations == p.reservations && y.reservations == q.reservations
    ensures Twins(env, x, y, scope, a, b)
  {
    hide Outside, FingerprintIssued, IssuedAs;
  }

  /** The next reservation for a job issues the first rows of its target's stock. */
  lemma ReserveIssuesFirst(env: Env, p: Pool, t: nat, h: nat)
    requires Open(p, t) && h < |p.jobs| && p.jobs[h].scope == p.targets[t].scope
    ensures forall k | 0 <= k < |AvailableIds(p.entries, t)| :: AvailableIds(p.entries, t)[k] < |p.entries|
    ensures var a := AvailableIds(p.entries, t); Reserve(env, p, h) == IssueAll(env, p, h, a[..Min(Shortage(p, h), |a|)])
  {
    OpenStockOfTarget(p, t);
    StockInRange(p.entries, {t}, |p.entries|);
    hide Stock, IssueAll, Shortage;
    var a := AvailableIds(p.entries, t);
    assert OpenStock(p, p.jobs[h].scope) == a;
    assert Take(a, Shortage(p, h)) == a[..Min(Shortage(p, h), |a|)];
  }

  lemma SameShortage(p: Pool, q: Pool, t: nat, h: nat)
    requires Alike(p, q, t) && h < |p.jobs| && p.jobs[h].scope == p.targets[t].scope
    ensures h < |q.jobs| && q.jobs[h] == p.jobs[h] && Shortage(p, h) == Shortage(q, h)
    ensures AvailableCount(p.entries, t) == AvailableCount(q.entries, t) && t < |q.targets| && q.targets[t].scope == p.targets[t].scope
  {
    hide Stock, CountFor;
  }

  lemma ServeTwins(env: Env, p: Pool, q: Pool, t: nat, h: nat)
    requires Open(p, t) && Open(q, t) && Alike(p, q, t) && TwinStocks(env, p, q, t)
    requires h < |p.jobs| && p.jobs[h].scope == p.targets[t].scope
    ensures var a, b := Serve(env, p, h), Serve(env, q, h);
            a.Some? == b.Some? && (a.Some? ==> a.value.targets == p.targets && TwinStocks(env, a.value, b.value, t))
  {
    SameShortage(p, q, t, h);
    hide Stock, IssueAll, CountFor, UniqueScopes, ReservationTarget, Twins, Shortage, Reserve, Alike;
    ReserveIssuesFirst(env, p, t, h);
    ReserveIssuesFirst(env, q, t, h);
    ServeTakesOldest(env, p, t, h);
    ServeTakesOldest(env, q, t, h);
    hide Open;
    var a, b := AvailableIds(p.entries, t), AvailableIds(q.entries, t);
    var n := Min(Shortage(p, h), |a|);
    IssueAllTwins(env, p, q, h, a, b, n);
    IssueAllFrame(env, p, h, a[..n]);
    IssueAllFrame(env, q, h, b[..n]);
    var x, y := IssueAll(env, p, h, a[..n]), IssueAll(env, q, h, b[..n]);
    assert Serve(env, p, h) == if x.Some? then Some(Recount(x.value, h)) else None;
    assert Serve(env, q, h) == if y.Some? then Some(Recount(y.value, h)) else None;
    if x.Some? {
      SameRowsTwins(env, x.value, y.value, Recount(x.value, h), Recount(y.value, h), p.targets[t].scope, a[n..], b[n..]);
    }
  }

  lemma {:induction false} ServeAllTwins(env: Env, p: Pool, q: Pool, t: nat, js: seq<nat>)
    requires Open(p, t) && Open(q, t) && Alike(p, q, t) && TwinStocks(env, p, q, t)
    requires forall i :: 0 <= i < |js| ==> js[i] < |p.jobs| && p.jobs[js[i]].scope == p.targets[t].scope
    ensures ServeAll(env, p, t, js).Done? == ServeAll(env, q, t, js).Done?
    decreases |js|
  {
    hide Serve, CountFor, Stock, TwinStocks;
    if js != [] {
      ServeAlike(env, p, q, t, js[0]);
      ServeTwins(env, p, q, t, js[0]);
      ServeKeepsScopes(env, p, js[0]);
      var a, b := Serve(env, p, js[0]), Serve(env, q, js[0]);
      if a.Some? && AvailableCount(a.value.entries, t) != 0 {
        ServeAllTwins(env, a.value, b.value, t, js[1..]);
      }
    }
  }

  lemma FulfillTwins(env: Env, p: Pool, q: Pool, t: nat)
    requires Open(p, t) && Open(q, t) && Alike(p, q, t) && TwinStocks(env, p, q, t)
    ensures Fulfill(env, p, t).Done? == Fulfill(env, q, t).Done?
  {
    var scope := p.targets[t].scope;
    SameUnfinished(p, q, scope);
    UnfinishedInRange(p.jobs, scope, |p.jobs|);
    hide TwinStocks, Open, UnfinishedJobs, ServeAll, Stock;
    ServeAllTwins(env, p, q, t, UnfinishedJobs(p.jobs, scope, |p.jobs|));
  }

  // ------------------------------------------------------------------ what a refill gives out

  /** The fingerprint of row `i` of target `t` in stock, or what the row is issued with. */
  predicate PrintOf(env: Env, p: Pool, scope: Scope, t: nat, i: nat, fingerprint: string) {
    && i < |p.entries| && p.entries[i].target == t && p.entries[i].state == Available
    && (fingerprint == p.entries[i].fingerprint || fingerprint == IssuedAs(env, scope, p.entries[i].line))
  }

  ghost predicate FromStock(env: Env, p: Pool, scope: Scope, t: nat, fingerprint: string) {
    exists i: nat :: PrintOf(env, p, scope, t, i, fingerprint)
  }

  /** Every new reservation gives out a row of the stock of target `t`. */
  ghost predicate GivesOut(env: Env, p: Pool, q: Pool, scope: Scope, t: nat) {
    && p.reservations <= q.reservations
    && (forall k | |p.reservations| <= k < |q.reservations| :: FromStock(env, p, scope, t, q.reservations[k].fingerprint))
  }

  lemma GivesOutTransitive(env: Env, p: Pool, q: Pool, r: Pool, scope: Scope, t: nat)
    requires OnlyTouches(env, p, q, scope, t) && GivesOut(env, p, q, scope, t) && GivesOut(env, q, r, scope, t)
    ensures GivesOut(env, p, r, scope, t)
  {
    forall k | |p.reservations| <= k < |r.reservations|
      ensures FromStock(env, p, scope, t, r.reservations[k].fingerprint)
    {
      if k < |q.reservations| {
        assert r.reservations[k] == q.reservations[k];
      } else {
        var i: nat :| PrintOf(env, q, scope, t, i, r.reservations[k].fingerprint);
        assert Touched(env, scope, t, p.entries[i], q.entries[i]);
        assert PrintOf(env, p, scope, t, i, r.reservations[k].fingerprint);
      }
    }
  }

  lemma IssueOneGivesOut(env: Env, p: Pool, job: nat, t: nat, id: nat)
    requires job < |p.jobs| && id < |p.entries| && p.entries[id].target == t && p.entries[id].state == Available
    ensures var r := IssueOne(env, p, job, id);
            r.Some? ==> GivesOut(env, p, r.value, p.jobs[job].scope, t) && OnlyTouches(env, p, r.value, p.jobs[job].scope, t)
  {
    var r := IssueOne(env, p, job, id);
    if r.Some? {
      assert PrintOf(env, p, p.jobs[job].scope, t, id, r.value.reservations[|p.reservations|].fingerprint);
    }
  }

  lemma {:induction false} IssueAllGivesOut(env: Env, p: Pool, job: nat, t: nat, ids: seq<nat>)
    requires job < |p.jobs|
    requires forall i :: 0 <= i < |ids| ==> ids[i] < |p.entries| && p.entries[ids[i]].target == t && p.entries[ids[i]].state == Available
    requires forall i, j :: 0 <= i < j < |ids| ==> ids[i] < ids[j]
    ensures var r := IssueAll(env, p, job, ids); r.Some? ==> GivesOut(env, p, r.value, p.jobs[job].scope, t)
    decreases |ids|
  {
    if ids != [] {
      IssueOneGivesOut(env, p, job, t, ids[0]);
      var r := IssueOne(env, p, job, ids[0]);
      if r.Some? {
        IssueAllGivesOut(env, r.value, job, t, ids[1..]);
        hide GivesOut, OnlyTouches;
        if IssueAll(env, p, job, ids).Some? {
          GivesOutTransitive(env, p, r.value, IssueAll(env, p, job, ids).value, p.jobs[job].scope, t);
        }
      }
    }
  }

  lemma ServeGivesOut(env: Env, p: Pool, t: nat, h: nat)
    requires Open(p, t) && h < |p.jobs| && p.jobs[h].scope == p.targets[t].scope
    ensures var r := Serve(env, p, h); r.Some? ==> r.value.targets == p.targets && GivesOut(env, p, r.value, p.targets[t].scope, t)
  {
    OpenStockOfTarget(p, t);
    StockInRange(p.entries, {t}, |p.entries|);
    StockComplete(p.entries, {t}, |p.entries|);
    var ids := Take(AvailableIds(p.entries, t), Shortage(p, h));
    IssueAllFrame(env, p, h, ids);
    IssueAllGivesOut(env, p, h, t, ids);
    hide GivesOut, Stock, Open, IssueAll;
    var r := Reserve(env, p, h);
    if r.Some? {
      SameReservationsGivenOut(env, p, r.value, Recount(r.value, h), p.targets[t].scope, t);
    }
  }

  lemma SameReservationsGivenOut(env: Env, p: Pool, q: Pool, r: Pool, scope: Scope, t: nat)
    requires GivesOut(env, p, q, scope, t) && r.reservations == q.reservations
    ensures GivesOut(env, p, r, scope, t)
  {
    hide FromStock;
  }

  lemma {:induction false} ServeAllGivesOut(env: Env, p: Pool, t: nat, js: seq<nat>)
    requires Open(p, t) && forall i :: 0 <= i < |js| ==> js[i] < |p.jobs| && p.jobs[js[i]].scope == p.targets[t].scope
    ensures GivesOut(env, p, ServeAll(env, p, t, js).pool, p.targets[t].scope, t)
    decreases |js|
  {
    if js != [] {
      ServeGivesOut(env, p, t, js[0]);
      ServeTouches(env, p, t, js[0]);
      ServeKeepsScopes(env, p, js[0]);
      hide Serve, GivesOut, OnlyTouches, Stock;
      var r := Serve(env, p, js[0]);
      if r.Some? && AvailableCount(r.value.entries, t) != 0 {
        ServeAllGivesOut(env, r.value, t, js[1..]);
        GivesOutTransitive(env, p, r.value, ServeAll(env, p, t, js).pool, p.targets[t].scope, t);
      } else {
        GivesOutItself(env, p, p.targets[t].scope, t);
      }
    } else {
      GivesOutItself(env, p, p.targets[t].scope, t);
    }
  }

  lemma GivesOutItself(env: Env, p: Pool, scope: Scope, t: nat)
    ensures GivesOut(env, p, p, scope, t)
  {
  }

  lemma FulfillGivesOut(env: Env, p: Pool, t: nat)
    requires Open(p, t)
    ensures GivesOut(env, p, Fulfill(env, p, t).pool, p.targets[t].scope, t)
  {
    UnfinishedInRange(p.jobs, p.targets[t].scope, |p.jobs|);
    hide GivesOut, ServeAll, UnfinishedJobs, UniqueScopes;
    ServeAllGivesOut(env, p, t, UnfinishedJobs(p.jobs, p.targets[t].scope, |p.jobs|));
  }

  // ------------------------------------------------------------------ repairs that stay apart

  predicate IsStock(p: Pool, ts: seq<nat>, i: nat) {
    i < |p.entries| && p.entries[i].state == Available && p.entries[i].target in ts && p.entries[i].target < |p.targets|
  }

  function Print(env: Env, p: Pool, i: nat): string
    requires i < |p.entries| && p.entries[i].target < |p.targets|
  {
    IssuedAs(env, p.targets[p.entries[i].target].scope, p.entries[i].line)
  }

  /** Stocked rows carry the digests of their lines, and what a row of one of the targets is
      issued with is on no row of another of them and no row of another is issued with it. */
  ghost predicate Untangled(env: Env, p: Pool, ts: seq<nat>) {
    && (forall i: nat | IsStock(p, ts, i) :: p.entries[i].fingerprint == env.digest(p.entries[i].line))
    && (forall i: nat, k: nat | IsStock(p, ts, i) && IsStock(p, ts, k) && p.entries[i].target != p.entries[k].target ::
          Print(env, p, i) != p.entries[k].fingerprint && Print(env, p, i) != Print(env, p, k))
  }

  /** Neither the stock of target `t` nor its new lines have the fingerprint or take it. */
  ghost predicate NoClash(env: Env, p: Pool, t: nat, supply: Supply, fingerprint: string)
    requires t < |p.targets|
  {
    && (forall i: nat :: !PrintOf(env, p, p.targets[t].scope, t, i, fingerprint))
    && (forall x | 0 <= x < |Lines(supply, t)| :: env.digest(Lines(supply, t)[x]) != fingerprint)
  }

  /** The refill of target `t` took `p` through `mid` to `r`. */
  ghost predicate Refilled(env: Env, p: Pool, mid: Pool, r: Pool, t: nat, supply: Supply)
    requires t < |p.targets|
  {
    var scope := p.targets[t].scope;
    && |p.entries| <= |mid.entries| && mid.entries[..|p.entries|] == p.entries && mid.reservations == p.reservations
    && (forall i | |p.entries| <= i < |mid.entries| ::
          mid.entries[i].target == t && mid.entries[i].line in Lines(supply, t) &&
          mid.entries[i].fingerprint == env.digest(mid.entries[i].line) == IssuedAs(env, scope, mid.entries[i].line))
    && OnlyTouches(env, mid, r, scope, t) && GivesOut(env, mid, r, scope, t)
  }

  lemma NewRowsDoNotClash(env: Env, p: Pool, mid: Pool, r: Pool, t: nat, supply: Supply, f: string)
    requires t < |p.targets| && Refilled(env, p, mid, r, t, supply) && NoClash(env, p, t, supply, f)
    ensures forall i: nat :: !PrintOf(env, mid, p.targets[t].scope, t, i, f)
  {
    forall i: nat ensures !PrintOf(env, mid, p.targets[t].scope, t, i, f) {
      assert !PrintOf(env, p, p.targets[t].scope, t, i, f);
      if i < |p.entries| {
        assert mid.entries[..|p.entries|][i] == mid.entries[i];
      } else if i < |mid.entries| {
        var x :| 0 <= x < |Lines(supply, t)| && Lines(supply, t)[x] == mid.entries[i].line;
      }
    }
  }

  /** A fingerprint that does not clash is taken after the refill exactly when it was before. */
  lemma TakenAsBefore(env: Env, p: Pool, mid: Pool, r: Pool, t: nat, supply: Supply, ids: seq<nat>, f: string)
    requires t < |p.targets| && Refilled(env, p, mid, r, t, supply) && NoClash(env, p, t, supply, f)
    requires forall k | 0 <= k < |ids| :: ids[k] < |p.entries|
    ensures Outside(p.entries, ids, f) <==> Outside(r.entries, ids, f)
    ensures FingerprintIssued(p.reservations, f) <==> FingerprintIssued(r.reservations, f)
  {
    var scope := p.targets[t].scope;
    NewRowsDoNotClash(env, p, mid, r, t, supply, f);
    hide IssuedAs;
    forall i: nat | i < |r.entries| && Live(r.entries[i]) && r.entries[i].fingerprint == f
      ensures i < |p.entries| && Live(p.entries[i]) && p.entries[i].fingerprint == f
    {
      assert Touched(env, scope, t, mid.entries[i], r.entries[i]);
      assert !PrintOf(env, mid, scope, t, i, f);
      if i < |p.entries| {
        assert mid.entries[..|p.entries|][i] == mid.entries[i];
      }
    }
    forall i: nat | i < |p.entries| && Live(p.entries[i]) && p.entries[i].fingerprint == f
      ensures i < |r.entries| && Live(r.entries[i]) && r.entries[i].fingerprint == f
    {
      assert mid.entries[..|p.entries|][i] == mid.entries[i];
      assert Touched(env, scope, t, mid.entries[i], r.entries[i]);
      assert !PrintOf(env, mid, scope, t, i, f);
    }
    forall k | |p.reservations| <= k < |r.reservations| ensures r.reservations[k].fingerprint != f {
      var i: nat :| PrintOf(env, mid, scope, t, i, r.reservations[k].fingerprint);
    }
    forall k | 0 <= k < |p.reservations| ensures r.reservations[k] == p.reservations[k] {}
  }

  lemma OffersNeedNoRepair(env: Env, p: Pool, t: nat, supply: Supply, line: string)
    requires Refillable(env, p, t, supply) && t < |p.targets| && line in Lines(supply, t)
    ensures env.repair(p.targets[t].scope, line) == line
  {
    var i :| 0 <= i < |Lines(supply, t)| && Lines(supply, t)[i] == line;
    assert [t][0] == t;
  }

  lemma RefillIsRefilled(env: Env, p: Pool, t: nat, supply: Supply)
    requires Refillable(env, p, t, supply)
    ensures t < |p.targets| && Supplies(supply(t), Needed(p, t))
    ensures var r := Refill(env, p, t, supply(t)); r.Done? ==> Refilled(env, p, Topped(env, p, t, supply), r.pool, t, supply)
  {
    RefillSplits(env, p, t, supply);
    MineIsOffered(p, t, supply);
    var r, mid := Refill(env, p, t, supply(t)), Topped(env, p, t, supply);
    if r.Done? {
      var f := Fulfill(env, mid, t).pool;
      forall i | |p.entries| <= i < |mid.entries|
        ensures mid.entries[i].target == t && mid.entries[i].line in Lines(supply, t)
        ensures mid.entries[i].fingerprint == env.digest(mid.entries[i].line) == IssuedAs(env, p.targets[t].scope, mid.entries[i].line)
      {
        assert mid.entries[i] == NewEntry(env, Mine(p, t, supply)[i - |p.entries|]);
        OffersNeedNoRepair(env, p, t, supply, mid.entries[i].line);
      }
      assert mid.entries[..|p.entries|] == p.entries;
      hide Refillable, Refill, Fulfill, OnlyTouches, GivesOut, Mine, NewEntries;
      FulfillTouches(env, mid, t);
      FulfillGivesOut(env, mid, t);
      OnlyEntriesMatter(env, mid, f, r.pool, p.targets[t].scope, t);
      SameReservationsGivenOut(env, mid, f, r.pool, p.targets[t].scope, t);
    }
  }

  /** What a stocked row of another target is issued with does not clash with target `t`. */
  lemma StockDoesNotClash(env: Env, p: Pool, ts: seq<nat>, supply: Supply, t: nat, u: nat, i: nat)
    requires Prepared(env, p, ts, supply) && Untangled(env, p, ts) && t in ts && u in ts && t != u && t < |p.targets| && u < |p.targets|
    requires i < |p.entries| && p.entries[i].target == u && p.entries[i].state == Available
    ensures NoClash(env, p, t, supply, IssuedAs(env, p.targets[u].scope, p.entries[i].line))
  {
    var f := IssuedAs(env, p.targets[u].scope, p.entries[i].line);
    assert IsStock(p, ts, i) && Print(env, p, i) == f;
    forall k: nat ensures !PrintOf(env, p, p.targets[t].scope, t, k, f) {
      if k < |p.entries| && p.entries[k].target == t && p.entries[k].state == Available {
        assert IsStock(p, ts, k);
      }
    }
    var a :| 0 <= a < |ts| && ts[a] == t;
    var b :| 0 <= b < |ts| && ts[b] == u;
    forall x | 0 <= x < |Lines(supply, t)| ensures env.digest(Lines(supply, t)[x]) != f {
      assert env.digest(env.repair(p.targets[ts[b]].scope, p.entries[i].line)) != env.digest(Lines(supply, ts[a])[x]);
    }
  }

  /** Nor does a new line of another target. */
  lemma OfferDoesNotClash(env: Env, p: Pool, ts: seq<nat>, supply: Supply, t: nat, u: nat, line: string)
    requires Prepared(env, p, ts, supply) && t in ts && u in ts && t != u && t < |p.targets| && u < |p.targets|
    requires line in Lines(supply, u)
    ensures NoClash(env, p, t, supply, IssuedAs(env, p.targets[u].scope, line))
  {
    var a :| 0 <= a < |ts| && ts[a] == t;
    var b :| 0 <= b < |ts| && ts[b] == u;
    var y :| 0 <= y < |Lines(supply, ts[b])| && Lines(supply, ts[b])[y] == line;
    assert env.repair(p.targets[ts[b]].scope, Lines(supply, ts[b])[y]) == line;
    var f := env.digest(line);
    forall k: nat ensures !PrintOf(env, p, p.targets[t].scope, t, k, f) {
      if k < |p.entries| && p.entries[k].target == ts[a] && p.entries[k].state == Available {
        assert env.digest(env.repair(p.targets[ts[a]].scope, p.entries[k].line)) != env.digest(Lines(supply, ts[b])[y]);
      }
    }
    forall x | 0 <= x < |Lines(supply, t)| ensures env.digest(Lines(supply, t)[x]) != f {
      assert env.digest(Lines(supply, ts[a])[x]) != env.digest(Lines(supply, ts[b])[y]);
    }
  }

  /** New rows of the list itself are not outside it. */
  lemma OutsideTopped(es: seq<Entry>, more: seq<Entry>, ids: seq<nat>, f: string)
    requires forall k | 0 <= k < |ids| :: ids[k] < |es|
    ensures Outside(es + more, ids + seq(|more|, i => |es| + i), f) <==> Outside(es, ids, f)
  {
    var all := ids + seq(|more|, i => |es| + i);
    forall i: nat | |es| <= i < |es + more| ensures i in all {
      assert all[|ids| + (i - |es|)] == i;
    }
    if i: nat :| i < |es + more| && i !in all && Live((es + more)[i]) && (es + more)[i].fingerprint == f {
      assert i < |es| && i !in ids;
    }
    if i: nat :| i < |es| && i !in ids && Live(es[i]) && es[i].fingerprint == f {
      assert (es + more)[i] == es[i];
      assert i !in all;
    }
  }

  // ------------------------------------------------------------------ refills do not disturb each other

  lemma LaterStock(p: Pool, r: Pool, t: nat, u: nat)
    requires OthersKept(p, r, t) && u != t
    ensures AvailableIds(r.entries, u) == AvailableIds(p.entries, u)
    ensures forall k | 0 <= k < |AvailableIds(p.entries, u)| ::
              var i := AvailableIds(p.entries, u)[k];
              i < |p.entries| && i < |r.entries| && r.entries[i] == p.entries[i] && p.entries[i].state == Available && p.entries[i].target == u
    ensures forall j, k :: 0 <= j < k < |AvailableIds(p.entries, u)| ==> AvailableIds(p.entries, u)[j] < AvailableIds(p.entries, u)[k]
  {
    StockOfOthers(p, r, t, u, |r.entries|);
    StockInRange(p.entries, {u}, |p.entries|);
    StockComplete(p.entries, {u}, |p.entries|);
  }

  lemma SameMine(p: Pool, r: Pool, u: nat, supply: Supply)
    requires u < |p.targets| && u < |r.targets| && Supplies(supply(u), Needed(p, u)) && Supplies(supply(u), Needed(r, u))
    requires Alike(p, r, u)
    ensures Needed(p, u) == Needed(r, u) && Mine(r, u, supply) == Mine(p, u, supply)
  {
    hide CountFor, Stock;
  }

  lemma Labels(env: Env, p: Pool, ts: seq<nat>, u: nat)
    requires Untangled(env, p, ts) && u in ts && u < |p.targets|
    ensures forall i | 0 <= i < |p.entries| && p.entries[i].target == u && p.entries[i].state == Available ::
              p.entries[i].fingerprint == env.digest(p.entries[i].line)
  {
    forall i | 0 <= i < |p.entries| && p.entries[i].target == u && p.entries[i].state == Available
      ensures p.entries[i].fingerprint == env.digest(p.entries[i].line)
    {
      assert IsStock(p, ts, i);
    }
  }

  /** A fingerprint is taken in both topped-up pools or in neither. */
  ghost predicate TakenAlike(p: Pool, r: Pool, ids: seq<nat>, more: seq<Entry>, f: string) {
    && (Outside(p.entries + more, ids + seq(|more|, i => |p.entries| + i), f) <==>
        Outside(r.entries + more, ids + seq(|more|, i => |r.entries| + i), f))
    && (FingerprintIssued(p.reservations, f) <==> FingerprintIssued(r.reservations, f))
  }

  lemma NoClashTakenAlike(env: Env, p: Pool, mid: Pool, r: Pool, t: nat, supply: Supply, ids: seq<nat>, more: seq<Entry>, f: string)
    requires t < |p.targets| && Refilled(env, p, mid, r, t, supply) && NoClash(env, p, t, supply, f)
    requires forall k | 0 <= k < |ids| :: ids[k] < |p.entries| && ids[k] < |r.entries|
    ensures TakenAlike(p, r, ids, more, f)
  {
    hide Outside, FingerprintIssued, Refilled, NoClash;
    TakenAsBefore(env, p, mid, r, t, supply, ids, f);
    OutsideTopped(p.entries, more, ids, f);
    OutsideTopped(r.entries, more, ids, f);
  }

  ghost predicate Labelled(env: Env, e: Entry) {
    e.state == Available && e.fingerprint == env.digest(e.line)
  }

  /** Old stock in the same rows and the same new rows make twins. */
  lemma TwinsFromRows(env: Env, p: Pool, r: Pool, scope: Scope, ids: seq<nat>, more: seq<Entry>)
    requires forall k | 0 <= k < |ids| ::
               ids[k] < |p.entries| && ids[k] < |r.entries| && r.entries[ids[k]] == p.entries[ids[k]] && Labelled(env, p.entries[ids[k]])
    requires forall j, k | 0 <= j < k < |ids| :: ids[j] < ids[k]
    requires forall k | 0 <= k < |more| :: Labelled(env, more[k]) && TakenAlike(p, r, ids, more, IssuedAs(env, scope, more[k].line))
    requires forall k | 0 <= k < |ids| :: TakenAlike(p, r, ids, more, IssuedAs(env, scope, p.entries[ids[k]].line))
    ensures Twins(env, p.(entries := p.entries + more), r.(entries := r.entries + more), scope,
                  ids + seq(|more|, i => |p.entries| + i), ids + seq(|more|, i => |r.entries| + i))
  {
    var x, y := p.(entries := p.entries + more), r.(entries := r.entries + more);
    var a, b := ids + seq(|more|, i => |p.entries| + i), ids + seq(|more|, i => |r.entries| + i);
    hide Outside, FingerprintIssued, IssuedAs;
    forall k | 0 <= k < |a|
      ensures a[k] < |x.entries| && b[k] < |y.entries| && x.entries[a[k]] == y.entries[b[k]] && Labelled(env, x.entries[a[k]])
      ensures TakenAlike(p, r, ids, more, IssuedAs(env, scope, x.entries[a[k]].line))
    {
      if k >= |ids| {
        assert x.entries[a[k]] == more[k - |ids|] && y.entries[b[k]] == more[k - |ids|];
      }
    }
  }

  lemma StockTakenAlike(env: Env, p: Pool, mid: Pool, r: Pool, ts: seq<nat>, supply: Supply, t: nat, u: nat, ids: seq<nat>, more: seq<Entry>, e: Entry)
    requires Prepared(env, p, ts, supply) && Untangled(env, p, ts) && t in ts && u in ts && t != u && t < |p.targets| && u < |p.targets|
    requires Refilled(env, p, mid, r, t, supply)
    requires forall k | 0 <= k < |ids| :: ids[k] < |p.entries| && ids[k] < |r.entries|
    requires e in p.entries && e.target == u && e.state == Available
    ensures TakenAlike(p, r, ids, more, IssuedAs(env, p.targets[u].scope, e.line))
  {
    var i :| 0 <= i < |p.entries| && p.entries[i] == e;
    hide *;
    StockDoesNotClash(env, p, ts, supply, t, u, i);
    NoClashTakenAlike(env, p, mid, r, t, supply, ids, more, IssuedAs(env, p.targets[u].scope, e.line));
  }

  lemma OfferTakenAlike(env: Env, p: Pool, mid: Pool, r: Pool, ts: seq<nat>, supply: Supply, t: nat, u: nat, ids: seq<nat>, more: seq<Entry>, line: string)
    requires Prepared(env, p, ts, supply) && t in ts && u in ts && t != u && t < |p.targets| && u < |p.targets|
    requires Refilled(env, p, mid, r, t, supply) && line in Lines(supply, u)
    requires forall k | 0 <= k < |ids| :: ids[k] < |p.entries| && ids[k] < |r.entries|
    ensures TakenAlike(p, r, ids, more, IssuedAs(env, p.targets[u].scope, line))
  {
    hide *;
    OfferDoesNotClash(env, p, ts, supply, t, u, line);
    NoClashTakenAlike(env, p, mid, r, t, supply, ids, more, IssuedAs(env, p.targets[u].scope, line));
  }

  /** The stocks of `u` topped up in `p` and after the refill of `t` are twins. */
  lemma ToppedTwins(env: Env, p: Pool, r: Pool, ts: seq<nat>, supply: Supply, t: nat, u: nat)
    requires Prepared(env, p, ts, supply) && Untangled(env, p, ts) && t in ts && u in ts && t != u
    requires t < |p.targets| && u < |p.targets| && u < |r.targets| && r.targets[u].scope == p.targets[u].scope
    requires Refillable(env, p, u, supply) && Refillable(env, r, u, supply)
    requires Supplies(supply(t), Needed(p, t)) && Supplies(supply(u), Needed(p, u)) && Supplies(supply(u), Needed(r, u))
    requires (Needed(p, u) == 0 || supply(u).Some?) && Needed(p, u) == Needed(r, u) && Mine(r, u, supply) == Mine(p, u, supply)
    requires Refilled(env, p, Topped(env, p, t, supply), r, t, supply) && OthersKept(p, r, t)
    ensures TwinStocks(env, Topped(env, p, u, supply), Topped(env, r, u, supply), u)
  {
    var mid, ids, more := Topped(env, p, t, supply), AvailableIds(p.entries, u), NewEntries(env, Mine(p, u, supply));
    ToppedStock(env, p, u, supply);
    ToppedStock(env, r, u, supply);
    LaterStock(p, r, t, u);
    MineIsOffered(p, u, supply);
    Labels(env, p, ts, u);
    hide Stock, Mine, Twins, Refilled, Prepared, OthersKept, Refillable, Needed, IssuedAs, Untangled, TakenAlike;
    forall k | 0 <= k < |ids| ensures Labelled(env, p.entries[ids[k]])
      ensures TakenAlike(p, r, ids, more, IssuedAs(env, p.targets[u].scope, p.entries[ids[k]].line))
    {
      StockTakenAlike(env, p, mid, r, ts, supply, t, u, ids, more, p.entries[ids[k]]);
    }
    forall k | 0 <= k < |more| ensures Labelled(env, more[k])
      ensures TakenAlike(p, r, ids, more, IssuedAs(env, p.targets[u].scope, more[k].line))
    {
      assert more[k] == NewEntry(env, Mine(p, u, supply)[k]);
      OfferTakenAlike(env, p, mid, r, ts, supply, t, u, ids, more, more[k].line);
    }
    TwinsFromRows(env, p, r, p.targets[u].scope, ids, more);
  }

  lemma MemberIsRefillable(env: Env, p: Pool, ts: seq<nat>, supply: Supply, t: nat)
    requires Prepared(env, p, ts, supply) && t in ts
    ensures Refillable(env, p, t, supply) && t < |p.targets| && Supplies(supply(t), Needed(p, t))
  {
    FreshSupplyOfSome(env, p, ts, [t], supply);
    hide FreshSupply;
    var i :| 0 <= i < |ts| && ts[i] == t;
  }

  lemma UndisturbedFulfilment(env: Env, p: Pool, r: Pool, ts: seq<nat>, supply: Supply, t: nat, u: nat)
    requires Prepared(env, p, ts, supply) && Untangled(env, p, ts) && t in ts && u in ts && t != u
    requires t < |p.targets| && u < |p.targets| && u < |r.targets|
    requires Refillable(env, p, u, supply) && Refillable(env, r, u, supply)
    requires Supplies(supply(t), Needed(p, t)) && Supplies(supply(u), Needed(p, u)) && Supplies(supply(u), Needed(r, u))
    requires Needed(p, u) == 0 || supply(u).Some?
    requires Refilled(env, p, Topped(env, p, t, supply), r, t, supply) && OthersKept(p, r, t) && Alike(p, r, u)
    ensures Fulfill(env, Topped(env, p, u, supply), u).Done? == Fulfill(env, Topped(env, r, u, supply), u).Done?
  {
    var x, y := Topped(env, p, u, supply), Topped(env, r, u, supply);
    assert r.targets[u].scope == p.targets[u].scope;
    hide *;
    SameMine(p, r, u, supply);
    ToppedTwins(env, p, r, ts, supply, t, u);
    ToppedAlike(env, p, r, u, supply);
    RefillableIsOpen(env, p, u, supply);
    RefillableIsOpen(env, r, u, supply);
    FulfillTwins(env, x, y, u);
  }

  /** Whether a refill completes does not depend on the refill of another target before it. */
  lemma Undisturbed(env: Env, p: Pool, ts: seq<nat>, supply: Supply, u: nat)
    requires ts != [] && Prepared(env, p, ts, supply) && Untangled(env, p, ts) && u in ts[1..]
    requires ts[0] < |p.targets| ==> Supplies(supply(ts[0]), Needed(p, ts[0]))
    ensures var r := Refill(env, p, ts[0], supply(ts[0]));
            r.Done? ==>
              && u < |p.targets| && u < |r.pool.targets| && Supplies(supply(u), Needed(p, u)) && Supplies(supply(u), Needed(r.pool, u))
              && Refill(env, p, u, supply(u)).Done? == Refill(env, r.pool, u, supply(u)).Done?
  {
    var t := ts[0];
    PreparedLater(env, p, ts, supply);
    var r := Refill(env, p, t, supply(t));
    if r.Done? {
      assert u in ts && t in ts && u != t;
      hide *;
      UnfoldPrepared(env, p, ts, supply);
      MemberIsRefillable(env, p, ts, supply, u);
      MemberIsRefillable(env, r.pool, ts[1..], supply, u);
      RefillLeaves(env, p, ts, supply, u);
      RefillIsRefilled(env, p, t, supply);
      SameMine(p, r.pool, u, supply);
      RefillSplits(env, p, u, supply);
      RefillSplits(env, r.pool, u, supply);
      if Needed(p, u) == 0 || supply(u).Some? {
        UndisturbedFulfilment(env, p, r.pool, ts, supply, t, u);
      }
    }
  }

  lemma UntangledLater(env: Env, p: Pool, r: Pool, ts: seq<nat>)
    requires ts != [] && Untangled(env, p, ts) && OthersKept(p, r, ts[0]) && SameShape(p.targets, r.targets) && ts[0] !in ts[1..]
    ensures Untangled(env, r, ts[1..])
  {
    forall i: nat | IsStock(r, ts[1..], i) ensures IsStock(p, ts, i) && r.entries[i] == p.entries[i] && Print(env, r, i) == Print(env, p, i) {
      assert r.entries[i].target in ts;
    }
  }

  predicate CompletesAlone(env: Env, p: Pool, t: nat, supply: Supply) {
    t < |p.targets| && Supplies(supply(t), Needed(p, t)) && Refill(env, p, t, supply(t)).Done?
  }

  /** A target can be filled: its lines are supplied, and the rows its unfinished jobs will take
      from the topped-up stock can be issued one after the other. */
  ghost predicate CanFill(env: Env, p: Pool, t: nat, supply: Supply) {
    && t < |p.targets| && Supplies(supply(t), Needed(p, t)) && (Needed(p, t) == 0 || supply(t).Some?)
    && var x := Topped(env, p, t, supply);
       && (forall i :: 0 <= i < |Taken(x, t)| ==> Taken(x, t)[i] < |x.entries|)
       && Issuable(env, x, p.targets[t].scope, Taken(x, t))
  }

  lemma ToppedIsSound(env: Env, p: Pool, t: nat, supply: Supply)
    requires Sound(env, p) && Refillable(env, p, t, supply) && t < |p.targets| && Supplies(supply(t), Needed(p, t))
    requires Needed(p, t) == 0 || supply(t).Some?
    ensures Sound(env, Topped(env, p, t, supply))
  {
    assert [t][0] == t;
    hide Sound, FreshSupply, Extends, TopUp, Generous, Needed, Mine, NewEntries;
    TopUpAppends(env, p, [t], supply);
    TopUpIsGood(env, p, t, supply(t));
  }

  /** Whether a refill completes, told from the tables before it. */
  lemma CompletesExactly(env: Env, p: Pool, t: nat, supply: Supply)
    requires Sound(env, p) && Refillable(env, p, t, supply)
    ensures CompletesAlone(env, p, t, supply) <==> CanFill(env, p, t, supply)
  {
    RefillSplits(env, p, t, supply);
    OpenInRange(p, t);
    var x := Topped(env, p, t, supply);
    assert x.targets == p.targets && (t < |p.targets| ==> p.targets[t].active);
    hide Sound, Refillable, Refill, Fulfill, Needed, Open, Topped, Issuable, Taken;
    if Needed(p, t) == 0 || supply(t).Some? {
      ToppedIsSound(env, p, t, supply);
      FulfilsExactly(env, x, t);
    }
  }

  lemma OthersKeptAfter(env: Env, p: Pool, ts: seq<nat>, supply: Supply)
    requires ts != [] && Prepared(env, p, ts, supply)
    ensures ts[0] < |p.targets| && Supplies(supply(ts[0]), Needed(p, ts[0]))
    ensures var r := Refill(env, p, ts[0], supply(ts[0])); r.Done? ==> OthersKept(p, r.pool, ts[0])
  {
    PreparedLater(env, p, ts, supply);
    hide *;
    UnfoldPrepared(env, p, ts, supply);
    RefillKeepsFresh(env, p, ts, supply);
  }

  /** Refills in turn all complete exactly when each would complete on its own. */
  lemma {:induction false} InTurnCompletes(env: Env, p: Pool, ts: seq<nat>, supply: Supply)
    requires Prepared(env, p, ts, supply) && Untangled(env, p, ts)
    ensures Generous(p, supply)
    ensures InTurn(env, p, ts, supply).Some? <==> forall t | t in ts :: CompletesAlone(env, p, t, supply)
    decreases |ts|
  {
    PreparedIsGenerous(env, p, ts, supply);
    if ts != [] {
      PreparedLater(env, p, ts, supply);
      OthersKeptAfter(env, p, ts, supply);
      var t, r := ts[0], Refill(env, p, ts[0], supply(ts[0]));
      hide Prepared, Generous, Refill, InTurn, Untangled, OthersKept, SameShape, Needed, Refillable;
      assert t in ts;
      if r.Done? {
        UntangledLater(env, p, r.pool, ts);
        InTurnCompletes(env, r.pool, ts[1..], supply);
        forall u | u in ts[1..] ensures CompletesAlone(env, p, u, supply) <==> CompletesAlone(env, r.pool, u, supply) {
          Undisturbed(env, p, ts, supply, u);
        }
        assert forall u :: u in ts <==> u == t || u in ts[1..];
      }
    }
  }

  lemma UntangledInAnyOrder(env: Env, p: Pool, a: seq<nat>, b: seq<nat>)
    requires Untangled(env, p, a) && forall x :: x in a <==> x in b
    ensures Untangled(env, p, b)
  {
    assert forall i: nat :: IsStock(p, a, i) <==> IsStock(p, b, i);
  }

  /** With repairs that stay apart, whether the prefill completes is the same for every batch
      size, whatever the order of the targets: it does when each refill alone would. */
  lemma SizeDoesNotDecideCompletion(env: Env, p: Pool, targets: seq<nat>, size: nat, supply: Supply, now: int, staleBefore: int)
    requires size > 0 && Generous(p, supply) && Unowned(p, targets, staleBefore)
    requires Eligible(p, targets) && FreshSupply(env, p, targets, supply) && Untangled(env, p, targets)
    ensures FillDirect(env, p, targets, size, supply, now, staleBefore).1 <==> forall t | t in targets :: CompletesAlone(env, p, t, supply)
  {
    var order := ProcessingOrder(p.targets, targets, size);
    PrefillEqualsRefillsInTurn(env, p, targets, size, supply, now, staleBefore);
    BatchesReorder(p.targets, targets, size);
    hide FillDirect, InTurn, ProcessingOrder, FreshSupply, Generous, UniqueScopes, Untangled;
    assert Prepared(env, p, targets, supply);
    PreparedInAnyOrder(env, p, targets, order, supply);
    assert forall x :: x in targets <==> x in order;
    UntangledInAnyOrder(env, p, targets, order);
    InTurnCompletes(env, p, order, supply);
  }
}
