/** `expand_proxy_pool_scope` (control/tasks.py) on the mutable target table: provision, raise
    the levels, and queue a refill for every selected target. */
module PoolExpansionDesk {
  import opened ProxyPool
  import opened ProxyPoolFacts
  import opened PoolExpansion

  function QueueAll(targets: seq<Target>, picked: seq<nat>, now: int, staleBefore: int, delivered: nat -> bool): seq<Target>
    decreases |picked|
  {
    if picked == [] then targets
    else QueueAll(QueueRefill(targets, picked[0], now, staleBefore, delivered(picked[0])).0, picked[1..], now, staleBefore, delivered)
  }

  /** Keys of the selected targets among the first `n`. */
  function Picked(d: Demand, targets: seq<Target>, n: nat): (picked: seq<nat>)
    requires n <= |targets|
    ensures forall t: nat :: t in picked <==> t < n && Selected(d, targets[t])
  {
    if n == 0 then [] else Picked(d, targets, n - 1) + (if Selected(d, targets[n - 1]) then [n - 1] else [])
  }

  /** The target table after the whole expansion. */
  function Provisioned(d: Demand, targets: seq<Target>, now: int, staleBefore: int, delivered: nat -> bool): seq<Target> {
    var raised := Expand(d, targets);
    QueueAll(raised, Picked(d, raised, |raised|), now, staleBefore, delivered)
  }

  // ------------------------------------------------------------------ queueing leaves the levels

  /** Equal up to the refill flags. */
  ghost predicate SameLevels(a: seq<Target>, b: seq<Target>) {
    |a| == |b| &&
    forall t :: 0 <= t < |a| ==>
      b[t] == a[t].(refillPending := b[t].refillPending, refillRequestedAt := b[t].refillRequestedAt)
  }

  lemma {:induction false} QueueingKeepsLevels(targets: seq<Target>, picked: seq<nat>, now: int, staleBefore: int, delivered: nat -> bool)
    ensures SameLevels(targets, QueueAll(targets, picked, now, staleBefore, delivered))
    ensures forall t: nat :: t < |targets| && t !in picked ==> QueueAll(targets, picked, now, staleBefore, delivered)[t] == targets[t]
    decreases |picked|
  {
    if picked != [] {
      QueueingKeepsLevels(QueueRefill(targets, picked[0], now, staleBefore, delivered(picked[0])).0, picked[1..], now, staleBefore, delivered);
    }
  }

  lemma {:induction false} InsertIgnoresFlags(a: seq<Target>, b: seq<Target>, desired: seq<Target>)
    requires SameLevels(a, b)
    ensures SameLevels(InsertTargets(a, desired), InsertTargets(b, desired))
    decreases |desired|
  {
    if desired != [] {
      FindIgnoresFlags(a, b, desired[0].scope, |a|);
      InsertIgnoresFlags(WithTarget(a, desired[0]), WithTarget(b, desired[0]), desired[1..]);
    }
  }

  lemma {:induction false} FindIgnoresFlags(a: seq<Target>, b: seq<Target>, scope: Scope, n: nat)
    requires SameLevels(a, b) && n <= |a|
    ensures FindTarget(a, scope, n) == FindTarget(b, scope, n)
  {
    if n > 0 {
      FindIgnoresFlags(a, b, scope, n - 1);
    }
  }

  lemma ExpandIgnoresFlags(d: Demand, a: seq<Target>, b: seq<Target>)
    requires SameLevels(a, b)
    ensures SameLevels(Expand(d, a), Expand(d, b))
  {
    InsertIgnoresFlags(a, b, Desired(d, d.bundles));
    hide Desired, InsertTargets, Locations;
  }

  /** Afterwards every configured bundle has exactly one target at every location, active
      and with at least the stock asked for; levels of existing targets never go down;
      targets outside the demand are the same; and thresholds stay within bounds. */
  lemma ProvisioningIsComplete(d: Demand, targets: seq<Target>, now: int, staleBefore: int, delivered: nat -> bool,
                               bundle: nat, spec: LocationSpec)
    requires UniqueScopes(targets) && DistinctLocations(d.specs) && bundle in d.bundles && spec in d.specs
    ensures var r := Provisioned(d, targets, now, staleBefore, delivered);
            && UniqueScopes(r) && |targets| <= |r|
            && (exists t :: 0 <= t < |r| && Provided(d, bundle, spec, r[t]))
            && (forall t :: 0 <= t < |targets| ==>
                  && r[t].scope == targets[t].scope
                  && r[t].targetCount >= targets[t].targetCount && r[t].replenishBelow >= targets[t].replenishBelow
                  && (!Selected(d, targets[t]) ==> r[t] == targets[t]))
            && (1 <= d.threshold <= d.targetCount && (forall t :: 0 <= t < |targets| ==> SoundLevels(targets[t])) ==>
                  forall t :: 0 <= t < |r| ==> SoundLevels(r[t]))
  {
    var raised := Expand(d, targets);
    ExpansionIsComplete(d, targets, bundle, spec);
    ExpansionIsMonotone(d, targets);
    QueueingKeepsLevels(raised, Picked(d, raised, |raised|), now, staleBefore, delivered);
    hide Expand, DistinctLocations, Locations, QueueAll;
    var r := Provisioned(d, targets, now, staleBefore, delivered);
    var t :| 0 <= t < |raised| && Provided(d, bundle, spec, raised[t]);
    assert Provided(d, bundle, spec, r[t]);
    SameScopesUnique(raised, r);
  }

  /** A second call changes no stock number, whatever the broker does in between. */
  lemma ProvisioningIsIdempotent(d: Demand, targets: seq<Target>, now: int, staleBefore: int, delivered: nat -> bool,
                                 later: int, staleLater: int, redelivered: nat -> bool)
    requires UniqueScopes(targets)
    ensures var r := Provisioned(d, targets, now, staleBefore, delivered);
            SameLevels(r, Provisioned(d, r, later, staleLater, redelivered))
  {
    var raised := Expand(d, targets);
    var r := Provisioned(d, targets, now, staleBefore, delivered);
    QueueingKeepsLevels(raised, Picked(d, raised, |raised|), now, staleBefore, delivered);
    ExpansionIsIdempotent(d, targets);
    ExpandIgnoresFlags(d, raised, r);
    var again := Expand(d, r);
    QueueingKeepsLevels(again, Picked(d, again, |again|), later, staleLater, redelivered);
    hide Expand, QueueAll, Picked;
  }

  // ------------------------------------------------------------------ the mutable table

  class ExpansionDesk {
    var targets: seq<Target>

    constructor (rows: seq<Target>)
      ensures targets == rows
    {
      targets := rows;
    }

    method ExpandProxyPoolScope(d: Demand, now: int, staleBefore: int, delivered: nat -> bool)
      modifies this
      ensures targets == Provisioned(d, old(targets), now, staleBefore, delivered)
    {
      ghost var start := targets;
      var desired := BuildDesired(d);
      targets := InsertTargets(targets, desired);
      ghost var inserted := targets;
      var locations := Locations(d.specs);
      for t := 0 to |targets|
        invariant |targets| == |inserted|
        invariant forall u :: 0 <= u < t ==> targets[u] == RaisedLevels(d, inserted[u])
        invariant forall u :: t <= u < |targets| ==> targets[u] == inserted[u]
      {
        if Selected(d, targets[t]) {
          var (count, threshold) := StockSettings(locations[(targets[t].scope.region, targets[t].scope.city)], d.targetCount, d.threshold);
          var target := targets[t];
          target := target.(targetCount := Max(target.targetCount, count));
          target := target.(replenishBelow := Max(target.replenishBelow, threshold));
          target := target.(active := true);
          targets := targets[t := target];
        }
      }
      assert targets == Expand(d, start);
      QueueSelected(Picked(d, targets, |targets|), now, staleBefore, delivered);
    }

    method QueueSelected(picked: seq<nat>, now: int, staleBefore: int, delivered: nat -> bool)
      modifies this
      ensures targets == QueueAll(old(targets), picked, now, staleBefore, delivered)
    {
      ghost var start := targets;
      assert picked[0..] == picked;
      for i := 0 to |picked|
        invariant QueueAll(start, picked, now, staleBefore, delivered) == QueueAll(targets, picked[i..], now, staleBefore, delivered)
      {
        assert picked[i..][1..] == picked[i + 1..];
        targets := QueueRefill(targets, picked[i], now, staleBefore, delivered(picked[i])).0;
      }
    }
  }

  /** The rows to insert, bundle by bundle and location by location. */
  method BuildDesired(d: Demand) returns (desired: seq<Target>)
    ensures desired == Desired(d, d.bundles)
  {
    desired := [];
    assert d.bundles[0..] == d.bundles;
    assert [] + Desired(d, d.bundles) == Desired(d, d.bundles);
    hide Desired, DesiredFor;
    for b := 0 to |d.bundles|
      invariant desired + Desired(d, d.bundles[b..]) == Desired(d, d.bundles)
    {
      DesiredNext(d, desired, d.bundles[b..]);
      assert d.bundles[b..][1..] == d.bundles[b + 1..];
      var rows := BuildFor(d, d.bundles[b]);
      desired := desired + rows;
    }
    DesiredNone(d, desired, d.bundles[|d.bundles|..]);
  }

  method BuildFor(d: Demand, bundle: nat) returns (rows: seq<Target>)
    ensures rows == DesiredFor(d, bundle, d.specs)
  {
    rows := [];
    for s := 0 to |d.specs|
      invariant rows == DesiredFor(d, bundle, d.specs[..s])
    {
      rows := rows + [NewTarget(d, bundle, d.specs[s])];
    }
    assert d.specs[..|d.specs|] == d.specs;
  }

  lemma DesiredNext(d: Demand, desired: seq<Target>, bundles: seq<nat>)
    requires bundles != []
    ensures desired + Desired(d, bundles) == (desired + DesiredFor(d, bundles[0], d.specs)) + Desired(d, bundles[1..])
  {
  }

  lemma DesiredNone(d: Demand, desired: seq<Target>, bundles: seq<nat>)
    requires bundles == []
    ensures desired + Desired(d, bundles) == desired
  {
  }
}
