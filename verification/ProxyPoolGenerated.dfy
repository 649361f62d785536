/** What a new job on a generated provider is given, line by line, and what it leaves in stock. */
module ProxyPoolGenerated {
  import opened Wrappers
  import opened Sequences
  import opened ProxyPool
  import opened ProxyPoolFacts
  import opened ProxyPoolLines
  import opened ProxyPoolSound
  import opened ProxyPoolRuns
  import opened ProxyPoolStock
  import opened ProxyPoolCreation
  import opened ProxyPrefill

  /** `t` is the row of the scope's target, or the next free one. */
  predicate IsKeyOf(targets: seq<Target>, scope: Scope, t: nat) {
    if t < |targets| then targets[t].scope == scope else t == |targets| && forall u | 0 <= u < |targets| :: targets[u].scope != scope
  }

  /** The stock that a request may use: none of the old one when it asks for fresh proxies of a
      provider that rotates. */
  function OldLines(p: Pool, r: JobRequest, t: nat): seq<string> {
    if r.freshPool && (r.scope.provider == "P1" || r.scope.provider == "P3") then [] else StockLines(p.entries, t)
  }

  function Supplied(supply: Option<seq<string>>): seq<string> {
    if supply.Some? then supply.value else []
  }

  lemma KeyIsKeyOf(targets: seq<Target>, scope: Scope, t: nat)
    requires UniqueScopes(targets) && IsKeyOf(targets, scope, t)
    ensures KeyOf(targets, scope) == t
  {
    var found := FindTarget(targets, scope, |targets|);
    if found.Some? && t < |targets| {
      assert !(found.value < t) && !(t < found.value);
    }
  }

  lemma AppendedLines(env: Env, es: seq<Entry>, t: nat, lines: seq<string>)
    ensures StockLines(es + NewEntries(env, RowsOf(t, lines)), t) == StockLines(es, t) + lines
  {
    AppendedStock(env, es, t, lines, t);
    NewEntryLines(env, t, lines);
    StockInRange(es, {t}, |es|);
    hide Stock, NewEntries;
    var fs := es + NewEntries(env, RowsOf(t, lines));
    assert |StockLines(fs, t)| == |StockLines(es, t)| + |lines|;
  }

  lemma KeptLines(p: Pool, r: JobRequest)
    ensures var t := KeyOf(p.targets, r.scope);
            StockLines(Kept(p, r), t) == OldLines(p, r, t) && forall u: nat | u != t :: AvailableIds(Kept(p, r), u) == AvailableIds(p.entries, u)
  {
    var t := KeyOf(p.targets, r.scope);
    DiscardsAll(p.entries, t);
    DiscardsNewest(p.entries, t, 0);
    hide Stock, KeyOf, Discard, Excess;
  }

  /** The stock of a request once its inventory is ensured: the old lines and the missing ones. */
  lemma StockedLines(env: Env, p: Pool, r: JobRequest, supply: Option<seq<string>>)
    requires Stockable(env, p, r, supply)
    ensures var t, q := KeyOf(p.targets, r.scope), Stocked(env, p, r, supply);
            && StockLines(q.entries, t) == OldLines(p, r, t) + Take(Supplied(supply), Max(0, r.candidateCount - |OldLines(p, r, t)|))
            && |StockLines(q.entries, t)| == Max(r.candidateCount, |OldLines(p, r, t)|)
            && forall u: nat | u != t :: AvailableIds(q.entries, u) == AvailableIds(p.entries, u)
  {
    var t, lines := KeyOf(p.targets, r.scope), NewLines(p, r, supply);
    KeptLines(p, r);
    AppendedLines(env, Kept(p, r), t, lines);
    hide StockLines, KeyOf, OldLines, Kept, WithTarget, DefaultTarget, NewEntries, NewFingerprints;
    assert Missing(p, r) == Max(0, r.candidateCount - |OldLines(p, r, t)|) by {
      assert |StockLines(Kept(p, r), t)| == AvailableCount(Kept(p, r), t);
    }
    forall u: nat | u != t ensures AvailableIds(Stocked(env, p, r, supply).entries, u) == AvailableIds(p.entries, u) {
      AppendedStock(env, Kept(p, r), t, lines, u);
    }
  }

  /** The target a request creates when its scope has none. */
  function NewTarget(scope: Scope): Target {
    var (count, threshold) := if scope.city != "" then (40, 8) else if scope.region != "" then (50, 10) else (1000, 200);
    Target(scope, count, threshold, true, false, None)
  }

  lemma NewTargetAdded(targets: seq<Target>, scope: Scope, t: nat)
    requires UniqueScopes(targets) && IsKeyOf(targets, scope, t)
    ensures WithTarget(targets, DefaultTarget(scope)) == if t < |targets| then targets else targets + [NewTarget(scope)]
  {
    LateTarget(targets, DefaultTarget(scope));
  }

  /** Reservation `k` of the new job carries line `k` of those it is given, repaired. */
  predicate Carries(env: Env, r: JobRequest, job: nat, x: Reservation, line: string) {
    && x.client == r.client && x.job == job && x.entry.Some?
    && x.line == env.repair(r.scope, line) && x.fingerprint == env.digest(env.repair(r.scope, line))
  }

  lemma ServesJob(env: Env, q: Pool, r: JobRequest, t: nat, catalog: seq<string>, autoGenerate: bool, brokered: bool, s: Pool)
    requires Sound(env, q) && ValidRequest(r) && t < |q.targets| && q.targets[t].scope == r.scope && q.targets[t].active
    requires r.candidateCount <= AvailableCount(q.entries, t) && CreateOn(env, q, r, catalog, autoGenerate, brokered) == Some(s)
    ensures Served(q, q, s, r, t)
  {
    assert forall k | 0 <= k < |q.reservations| :: q.reservations[k].job < |q.jobs|;
    assert UniqueScopes(q.targets);
    hide Sound, UniqueScopes, Stock, FillJob, CountFor;
    FillJobServes(env, q, r, t, catalog, autoGenerate);
  }

  /** The reservations of the new job in the two descriptions of it. */
  lemma GivenEntries(env: Env, q: Pool, r: JobRequest, catalog: seq<string>, rows: seq<nat>, picks: seq<nat>, rs: seq<Reservation>)
    requires Takes(env, q, r, catalog, rows, picks) && rs == q.reservations + Given(env, q, r, catalog, rows, picks)
    ensures |rs| == |q.reservations| + |rows| + |picks| && (|picks| > 0 ==> rs[|rs| - 1].entry.None?)
    ensures forall k | 0 <= k < |rows| :: rs[|q.reservations| + k].entry == Some(rows[k])
  {
    hide AreFirst, Digests, FreshLines, FreshDigests, OpenRows;
  }

  lemma CreatedReservations(env: Env, q: Pool, r: JobRequest, catalog: seq<string>, autoGenerate: bool, brokered: bool, s: Pool,
                            rows: seq<nat>, picks: seq<nat>)
    requires Takes(env, q, r, catalog, rows, picks) && Creates(env, q, r, catalog, autoGenerate, brokered, rows, picks, s)
    ensures (forall k | 0 <= k < |rows| :: rows[k] < |q.entries|) && forall k | 0 <= k < |picks| :: picks[k] < |catalog|
    ensures s.reservations == q.reservations + Given(env, q, r, catalog, rows, picks)
  {
    hide AreFirst, RowsIssued, Given, Digests, FreshLines, FreshDigests, OpenRows, NewStatus;
  }

  lemma ServedEntries(q: Pool, s: Pool, r: JobRequest, t: nat, ids: seq<nat>)
    requires Served(q, q, s, r, t) && ids == AvailableIds(q.entries, t)
    ensures r.candidateCount <= |ids| && |s.reservations| == |q.reservations| + r.candidateCount
    ensures forall k | 0 <= k < r.candidateCount :: s.reservations[|q.reservations| + k].entry == Some(ids[k])
  {
    hide AvailableIds, CountFor;
    forall k | 0 <= k < r.candidateCount ensures s.reservations[|q.reservations| + k].entry == Some(ids[k]) {
      assert IssuedTo(s.reservations[|q.reservations| + k], r.client, |q.jobs|, ids[(|q.reservations| + k) - |q.reservations|]);
    }
  }

  lemma SameEntries(rs: seq<Reservation>, n: nat, count: nat, rows: seq<nat>, more: nat, ids: seq<nat>)
    requires 1 <= count <= |ids| && |rs| == n + count == n + |rows| + more && (more > 0 ==> rs[|rs| - 1].entry.None?)
    requires forall k | 0 <= k < |rows| :: rs[n + k].entry == Some(rows[k])
    requires forall k | 0 <= k < count :: rs[n + k].entry == Some(ids[k])
    ensures more == 0 && rows == ids[..count]
  {
    assert rs[n + (count - 1)].entry == Some(ids[count - 1]);
    forall k | 0 <= k < |rows| ensures rows[k] == ids[k] {
      assert rs[n + k].entry == Some(rows[k]);
    }
  }

  lemma AsksForOne(r: JobRequest)
    requires ValidRequest(r)
    ensures 1 <= r.candidateCount
  {
  }

  /** The rows it takes are the oldest ones, and it takes nothing from the catalog. */
  lemma TakesOldest(env: Env, q: Pool, r: JobRequest, t: nat, catalog: seq<string>, autoGenerate: bool, brokered: bool, s: Pool,
                    rows: seq<nat>, picks: seq<nat>)
    requires ValidRequest(r) && r.candidateCount <= AvailableCount(q.entries, t) && Served(q, q, s, r, t)
    requires Takes(env, q, r, catalog, rows, picks) && Creates(env, q, r, catalog, autoGenerate, brokered, rows, picks, s)
    ensures |rows| == r.candidateCount && |picks| == 0 && rows == AvailableIds(q.entries, t)[..r.candidateCount]
  {
    hide *;
    var ids := AvailableIds(q.entries, t);
    AsksForOne(r);
    CreatedReservations(env, q, r, catalog, autoGenerate, brokered, s, rows, picks);
    GivenEntries(env, q, r, catalog, rows, picks, s.reservations);
    ServedEntries(q, s, r, t, ids);
    SameEntries(s.reservations, |q.reservations|, r.candidateCount, rows, |picks|, ids);
  }

  lemma LineOfId(es: seq<Entry>, t: nat, k: nat)
    requires k < AvailableCount(es, t)
    ensures AvailableIds(es, t)[k] < |es| && es[AvailableIds(es, t)[k]].line == StockLines(es, t)[k]
  {
    StockInRange(es, {t}, |es|);
  }

  /** On a pool with enough stock, the first lines of the stock go to the new job. */
  lemma ServedFromStock(env: Env, q: Pool, r: JobRequest, t: nat, catalog: seq<string>, autoGenerate: bool,
                        brokered: bool, s: Pool)
    requires Sound(env, q) && ValidRequest(r) && t < |q.targets| && q.targets[t].scope == r.scope && q.targets[t].active
    requires r.candidateCount <= AvailableCount(q.entries, t) && CreateOn(env, q, r, catalog, autoGenerate, brokered) == Some(s)
    ensures Served(q, q, s, r, t)
    ensures forall k | 0 <= k < r.candidateCount :: Carries(env, r, |q.jobs|, s.reservations[|q.reservations| + k], StockLines(q.entries, t)[k])
    ensures StockLines(s.entries, t) == StockLines(q.entries, t)[r.candidateCount..]
  {
    hide Sound, Stock, StockLines, FillJob, CountFor, AreFirst, OpenRows, Digests, FreshLines, FreshDigests, CreateOn;
    ServesJob(env, q, r, t, catalog, autoGenerate, brokered, s);
    var rows, picks := CreateOnGives(env, q, r, catalog, autoGenerate, brokered);
    TakesOldest(env, q, r, t, catalog, autoGenerate, brokered, s, rows, picks);
    forall k | 0 <= k < r.candidateCount
      ensures Carries(env, r, |q.jobs|, s.reservations[|q.reservations| + k], StockLines(q.entries, t)[k])
    {
      LineOfId(q.entries, t, k);
      assert s.reservations[|q.reservations| + k] == FromStock(env, r.scope, r.client, |q.jobs|, rows[k], q.entries[rows[k]]);
    }
    StockLinesDrop(q.entries, s.entries, t, r.candidateCount);
  }

  /** What a request on a generated provider leaves: target `t` of its scope, `given` the lines it
      can use, `rest` what stays of them in stock. */
  ghost predicate Generates(env: Env, p: Pool, r: JobRequest, t: nat, given: seq<string>, rest: seq<string>, s: Pool) {
    && s.jobs == p.jobs + [Job(r.client, r.scope, r.requestedCount, r.candidateCount, r.candidateCount, Ready)]
    && s.targets == (if t < |p.targets| then p.targets else p.targets + [NewTarget(r.scope)])
    && r.candidateCount <= |given|
    && |s.reservations| == |p.reservations| + r.candidateCount && s.reservations[..|p.reservations|] == p.reservations
    && (forall k | 0 <= k < r.candidateCount :: Carries(env, r, |p.jobs|, s.reservations[|p.reservations| + k], given[k]))
    && StockLines(s.entries, t) == rest
    && (forall u: nat | u != t :: AvailableIds(s.entries, u) == AvailableIds(p.entries, u))
  }

  lemma SplitGiven(before: seq<string>, supplied: seq<string>, count: nat, all: seq<string>)
    requires all == before + Take(supplied, Max(0, count - |before|)) && |all| == Max(count, |before|)
    ensures count <= |before + supplied| && forall k | 0 <= k < count :: all[k] == (before + supplied)[k]
    ensures all[count..] == Rest(before, count)
  {
  }

  lemma StockedTarget(env: Env, p: Pool, r: JobRequest, supply: Option<seq<string>>, t: nat)
    requires UniqueScopes(p.targets) && IsKeyOf(p.targets, r.scope, t) && Stockable(env, p, r, supply)
    ensures var q := Stocked(env, p, r, supply);
            && q.targets == (if t < |p.targets| then p.targets else p.targets + [NewTarget(r.scope)])
            && t < |q.targets| && q.targets[t].scope == r.scope && q.targets[t].active
            && q.jobs == p.jobs && q.reservations == p.reservations && t == KeyOf(p.targets, r.scope)
  {
    KeyIsKeyOf(p.targets, r.scope, t);
    NewTargetAdded(p.targets, r.scope, t);
    hide KeyOf, WithTarget, DefaultTarget, Kept, NewLines, UniqueScopes, NewEntries, NewFingerprints;
  }

  lemma CreationNeedsInventory(env: Env, p: Pool, r: JobRequest, supply: Option<seq<string>>, catalog: seq<string>,
                               autoGenerate: bool, brokered: bool)
    requires Dynamic(r.scope.provider) && CreateJob(env, p, r, supply, catalog, autoGenerate, brokered).Some?
    ensures EnsureInventory(env, p, r.scope, r.candidateCount, r.freshPool, supply).Some?
  {
    hide EnsureInventory, CreateOn;
  }

  lemma SoundScopes(env: Env, p: Pool)
    requires Sound(env, p)
    ensures UniqueScopes(p.targets)
  {
  }

  lemma GeneratedJob(env: Env, p: Pool, r: JobRequest, supply: Option<seq<string>>, catalog: seq<string>,
                     autoGenerate: bool, brokered: bool, t: nat, s: Pool)
    requires Sound(env, p) && ValidRequest(r) && Dynamic(r.scope.provider) && IsKeyOf(p.targets, r.scope, t)
    requires CreateJob(env, p, r, supply, catalog, autoGenerate, brokered) == Some(s)
    ensures Generates(env, p, r, t, OldLines(p, r, t) + Supplied(supply), Rest(OldLines(p, r, t), r.candidateCount), s)
  {
    hide *;
    SoundScopes(env, p);
    var q := Stocked(env, p, r, supply);
    EnsureExactly(env, p, r, supply);
    CreationNeedsInventory(env, p, r, supply, catalog, autoGenerate, brokered);
    UnfoldCreate(env, p, q, r, supply, catalog, autoGenerate, brokered);
    StockedIsSound(env, p, r, supply);
    StockedTarget(env, p, r, supply, t);
    StockedLines(env, p, r, supply);
    GeneratedOn(env, p, q, r, t, OldLines(p, r, t), Supplied(supply), catalog, autoGenerate, brokered, s);
  }

  /** What stays of the old stock. */
  function Rest(before: seq<string>, count: nat): seq<string> {
    if count < |before| then before[count..] else []
  }

  lemma GeneratedOn(env: Env, p: Pool, q: Pool, r: JobRequest, t: nat, before: seq<string>, supplied: seq<string>,
                    catalog: seq<string>,
                    autoGenerate: bool, brokered: bool, s: Pool)
    requires Sound(env, q) && ValidRequest(r) && t < |q.targets| && q.targets[t].scope == r.scope && q.targets[t].active
    requires q.targets == (if t < |p.targets| then p.targets else p.targets + [NewTarget(r.scope)])
    requires q.jobs == p.jobs && q.reservations == p.reservations
    requires StockLines(q.entries, t) == before + Take(supplied, Max(0, r.candidateCount - |before|))
    requires |StockLines(q.entries, t)| == Max(r.candidateCount, |before|)
    requires forall u: nat | u != t :: AvailableIds(q.entries, u) == AvailableIds(p.entries, u)
    requires CreateOn(env, q, r, catalog, autoGenerate, brokered) == Some(s)
    ensures Generates(env, p, r, t, before + supplied, Rest(before, r.candidateCount), s)
  {
    var all := StockLines(q.entries, t);
    assert |all| == AvailableCount(q.entries, t) >= r.candidateCount;
    hide *;
    SplitGiven(before, supplied, r.candidateCount, all);
    ServedFromStock(env, q, r, t, catalog, autoGenerate, brokered, s);
    FoldGenerates(env, p, q, r, t, all, before + supplied, Rest(before, r.candidateCount), s);
  }

  lemma FoldGenerates(env: Env, p: Pool, q: Pool, r: JobRequest, t: nat, all: seq<string>, given: seq<string>,
                      rest: seq<string>, s: Pool)
    requires Served(q, q, s, r, t) && q.jobs == p.jobs && q.reservations == p.reservations
    requires q.targets == (if t < |p.targets| then p.targets else p.targets + [NewTarget(r.scope)])
    requires forall u: nat | u != t :: AvailableIds(q.entries, u) == AvailableIds(p.entries, u)
    requires r.candidateCount <= |all| && r.candidateCount <= |given| && forall k | 0 <= k < r.candidateCount :: all[k] == given[k]
    requires forall k | 0 <= k < r.candidateCount :: Carries(env, r, |q.jobs|, s.reservations[|q.reservations| + k], all[k])
    requires StockLines(s.entries, t) == rest
    ensures Generates(env, p, r, t, given, rest, s)
  {
    hide Stock, StockLines, Carries, CountFor, NewTarget, AvailableIds;
    assert CreatedJob(r).(readyCount := r.candidateCount, status := Ready) ==
           Job(r.client, r.scope, r.requestedCount, r.candidateCount, r.candidateCount, Ready);
    forall u: nat | u != t ensures AvailableIds(s.entries, u) == AvailableIds(p.entries, u) {
      assert AvailableIds(q.entries, u)[0..] == AvailableIds(q.entries, u);
    }
  }

  /** After any run, a request that P1, P2 or P3 serves gets a job that is ready with its
      candidates: the oldest lines in stock and then those the generator hands out, in order and
      repaired for its scope; with fresh proxies of P1 or P3 the old stock is dropped first.  What
      is left over of the old stock stays, and nothing moves for other targets. */
  lemma GeneratedCreation(env: Env, ops: seq<Op>, r: JobRequest, supply: Option<seq<string>>, catalog: seq<string>,
                          autoGenerate: bool, brokered: bool, t: nat)
    requires Legal(env, Empty, ops) && ValidRequest(r)
    requires r.scope.provider == "P1" || r.scope.provider == "P2" || r.scope.provider == "P3"
    requires IsKeyOf(Run(env, Empty, ops).targets, r.scope, t)
    ensures var p := Run(env, Empty, ops);
            var c := CreateJob(env, p, r, supply, catalog, autoGenerate, brokered);
            c.Some? ==> Generates(env, p, r, t, OldLines(p, r, t) + Supplied(supply), Rest(OldLines(p, r, t), r.candidateCount), c.value)
  {
    RunIsGood(env, Empty, ops);
    var p := Run(env, Empty, ops);
    hide Run, Legal, Extends;
    var c := CreateJob(env, p, r, supply, catalog, autoGenerate, brokered);
    if c.Some? {
      hide CreateJob, Generates, OldLines, Rest, Sound, IsKeyOf;
      GeneratedJob(env, p, r, supply, catalog, autoGenerate, brokered, t, c.value);
    }
  }
}
