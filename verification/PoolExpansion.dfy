/** Scope expansion (control/proxy_expansion.py and `expand_proxy_pool_scope` in
    control/tasks.py): the locations behind the panel's Any values and the targets they get. */
module PoolExpansion {
  import opened Wrappers
  import opened Sequences
  import opened ProxyPool
  import opened ProxyPoolFacts

  const CITY_TARGET: nat := 40
  const CITY_THRESHOLD: nat := 8
  const GEO_ACCOUNT := "p3-global-v1"

  datatype RegionRow = RegionRow(provider: string, country: string, code: string, active: bool)

  datatype CityRow = CityRow(provider: string, account: string, country: string, region: string, name: string, active: bool)

  /** The geography catalogs, with rows in the order the queries list them. */
  datatype Catalog = Catalog(activeProviders: set<string>, regions: seq<RegionRow>, cities: seq<CityRow>)

  datatype Level = Exact | Country | Region | City

  datatype LocationSpec = LocationSpec(region: string, city: string, level: Level)

  // ------------------------------------------------------------------ locations

  function RegionCodes(cat: Catalog, rows: seq<RegionRow>, provider: string, country: string): seq<string>
  {
    if rows == [] then []
    else
      var row := rows[|rows| - 1];
      RegionCodes(cat, rows[..|rows| - 1], provider, country) +
      (if row.provider == provider && provider in cat.activeProviders && row.country == country && row.active
       then [row.code] else [])
  }

  /** P1 shares the city catalog of P3. */
  function CityProvider(provider: string): string {
    if provider == "P1" || provider == "P3" then "P3" else provider
  }

  predicate ListsCity(cat: Catalog, row: CityRow, provider: string, country: string) {
    && row.provider == CityProvider(provider) && row.provider in cat.activeProviders
    && row.account == GEO_ACCOUNT && row.country == country && row.active
  }

  /** City names of a country, all of them or those of one region. */
  function CityNames(cat: Catalog, rows: seq<CityRow>, provider: string, country: string, region: Option<string>): seq<string>
  {
    if rows == [] then []
    else
      var row := rows[|rows| - 1];
      CityNames(cat, rows[..|rows| - 1], provider, country, region) +
      (if ListsCity(cat, row, provider, country) && (region.None? || row.region == region.value) then [row.name] else [])
  }

  /** The first name that equals `city` up to case. */
  function Canonical(names: seq<string>, city: string, fold: string -> string): Option<string>
    decreases |names|
  {
    if names == [] then None
    else if fold(names[0]) == fold(city) then Some(names[0])
    else Canonical(names[1..], city, fold)
  }

  function RegionSpecs(codes: seq<string>): seq<LocationSpec> {
    seq(|codes|, i requires 0 <= i < |codes| => LocationSpec(codes[i], "", Region))
  }

  function CitySpecs(names: seq<string>): seq<LocationSpec> {
    seq(|names|, i requires 0 <= i < |names| => LocationSpec("", names[i], City))
  }

  /** `proxy_location_specs` on trimmed arguments. */
  function LocationSpecs(cat: Catalog, fold: string -> string, provider: string, country: string, region: string, city: string): seq<LocationSpec>
  {
    if provider == "" || country == "" then []
    else if provider != "P1" && provider != "P3" then [LocationSpec(region, city, Exact)]
    else
      var codes := Distinct(RegionCodes(cat, cat.regions, provider, country));
      if region != "" && region !in codes then []
      else if city != "" then
        match Canonical(CityNames(cat, cat.cities, provider, country, None), city, fold)
        case None => []
        case Some(name) => if name == "" then [] else [LocationSpec("", name, City)]
      else if region != "" then
        [LocationSpec(region, "", Region)] + CitySpecs(Distinct(CityNames(cat, cat.cities, provider, country, Some(region))))
      else
        [LocationSpec("", "", Country)] + RegionSpecs(codes) +
        CitySpecs(Distinct(CityNames(cat, cat.cities, provider, country, None)))
  }

  /** `location_stock_settings`: cities are capped. */
  function StockSettings(spec: LocationSpec, targetCount: nat, threshold: nat): (nat, nat) {
    if spec.level != City then (targetCount, threshold)
    else
      var count := Min(targetCount, CITY_TARGET);
      (count, Max(1, Min(Min(threshold, CITY_THRESHOLD), count)))
  }

  // ------------------------------------------------------------------ provisioning

  /** What the panel asks for. */
  datatype Demand = Demand(bundles: seq<nat>, provider: string, country: string, specs: seq<LocationSpec>,
                           targetCount: nat, threshold: nat)

  function ScopeOf(d: Demand, bundle: nat, spec: LocationSpec): Scope {
    Scope(bundle, d.provider, d.country, spec.region, spec.city)
  }

  function NewTarget(d: Demand, bundle: nat, spec: LocationSpec): Target {
    var (count, threshold) := StockSettings(spec, d.targetCount, d.threshold);
    Target(ScopeOf(d, bundle, spec), count, threshold, true, false, None)
  }

  function DesiredFor(d: Demand, bundle: nat, specs: seq<LocationSpec>): seq<Target> {
    seq(|specs|, i requires 0 <= i < |specs| => NewTarget(d, bundle, specs[i]))
  }

  function Desired(d: Demand, bundles: seq<nat>): seq<Target>
    decreases |bundles|
  {
    if bundles == [] then [] else DesiredFor(d, bundles[0], d.specs) + Desired(d, bundles[1..])
  }

  /** Insert ignoring conflicts on the unique scope. */
  function InsertTargets(targets: seq<Target>, desired: seq<Target>): seq<Target>
    decreases |desired|
  {
    if desired == [] then targets else InsertTargets(WithTarget(targets, desired[0]), desired[1..])
  }

  /** The dictionary of locations: the last spec of a location wins. */
  function Locations(specs: seq<LocationSpec>): map<(string, string), LocationSpec> {
    if specs == [] then map[]
    else
      var spec := specs[|specs| - 1];
      Locations(specs[..|specs| - 1])[(spec.region, spec.city) := spec]
  }

  predicate Selected(d: Demand, target: Target) {
    && target.scope.bundle in d.bundles && target.scope.provider == d.provider && target.scope.country == d.country
    && (target.scope.region, target.scope.city) in Locations(d.specs)
  }

  function RaisedLevels(d: Demand, target: Target): Target {
    if Selected(d, target) then
      var (count, threshold) := StockSettings(Locations(d.specs)[(target.scope.region, target.scope.city)], d.targetCount, d.threshold);
      target.(targetCount := Max(target.targetCount, count), replenishBelow := Max(target.replenishBelow, threshold), active := true)
    else target
  }

  function RaiseAll(d: Demand, targets: seq<Target>): seq<Target> {
    seq(|targets|, t requires 0 <= t < |targets| => RaisedLevels(d, targets[t]))
  }

  /** The stock levels `expand_proxy_pool_scope` leaves. */
  function Expand(d: Demand, targets: seq<Target>): seq<Target> {
    RaiseAll(d, InsertTargets(targets, Desired(d, d.bundles)))
  }

  // ------------------------------------------------------------------ what expansion achieves

  lemma {:induction false} LocationsHold(specs: seq<LocationSpec>)
    ensures forall key :: key in Locations(specs) ==>
              Locations(specs)[key] in specs && key == (Locations(specs)[key].region, Locations(specs)[key].city)
    ensures forall spec :: spec in specs ==> (spec.region, spec.city) in Locations(specs)
  {
    if specs != [] {
      LocationsHold(specs[..|specs| - 1]);
      assert forall spec :: spec in specs <==> spec in specs[..|specs| - 1] || spec == specs[|specs| - 1];
    }
  }

  /** No two specs name the same location. */
  ghost predicate DistinctLocations(specs: seq<LocationSpec>) {
    forall i, j :: 0 <= i < j < |specs| ==> (specs[i].region, specs[i].city) != (specs[j].region, specs[j].city)
  }

  predicate HasScope(targets: seq<Target>, scope: Scope) {
    exists i :: 0 <= i < |targets| && targets[i].scope == scope
  }

  lemma {:induction false} InsertTargetsKeeps(targets: seq<Target>, desired: seq<Target>)
    requires UniqueScopes(targets)
    ensures var r := InsertTargets(targets, desired);
            && UniqueScopes(r) && |targets| <= |r|
            && (forall i :: 0 <= i < |targets| ==> r[i] == targets[i])
            && (forall i :: |targets| <= i < |r| ==> r[i] in desired)
    decreases |desired|
  {
    if desired != [] {
      InsertTargetsKeeps(WithTarget(targets, desired[0]), desired[1..]);
    }
  }

  lemma {:induction false} InsertTargetsCovers(targets: seq<Target>, desired: seq<Target>)
    requires UniqueScopes(targets)
    ensures forall x :: x in desired ==> HasScope(InsertTargets(targets, desired), x.scope)
    decreases |desired|
  {
    if desired != [] {
      var next, r := WithTarget(targets, desired[0]), InsertTargets(targets, desired);
      InsertTargetsKeeps(next, desired[1..]);
      InsertTargetsCovers(next, desired[1..]);
      var i :| 0 <= i < |next| && next[i].scope == desired[0].scope;
      assert r[i].scope == desired[0].scope;
      assert forall x :: x in desired <==> x == desired[0] || x in desired[1..];
    }
  }

  predicate ComesFrom(d: Demand, bundles: seq<nat>, x: Target) {
    exists i, j | 0 <= i < |bundles| && 0 <= j < |d.specs| :: x == NewTarget(d, bundles[i], d.specs[j])
  }

  lemma {:induction false} DesiredHas(d: Demand, bundles: seq<nat>)
    ensures forall b, spec :: b in bundles && spec in d.specs ==> NewTarget(d, b, spec) in Desired(d, bundles)
    ensures forall x :: x in Desired(d, bundles) ==> ComesFrom(d, bundles, x)
    decreases |bundles|
  {
    if bundles != [] {
      DesiredHas(d, bundles[1..]);
      var first := DesiredFor(d, bundles[0], d.specs);
      forall b, spec | b in bundles && spec in d.specs ensures NewTarget(d, b, spec) in Desired(d, bundles) {
        if b == bundles[0] {
          var i :| 0 <= i < |d.specs| && d.specs[i] == spec;
          assert first[i] == NewTarget(d, b, spec);
        } else {
          assert b in bundles[1..];
        }
      }
      forall x | x in Desired(d, bundles) ensures ComesFrom(d, bundles, x) {
        if x in first {
          var j :| 0 <= j < |first| && first[j] == x;
          assert x == NewTarget(d, bundles[0], d.specs[j]);
        } else {
          assert x in Desired(d, bundles[1..]);
          var i, j :| 0 <= i < |bundles[1..]| && 0 <= j < |d.specs| && x == NewTarget(d, bundles[1..][i], d.specs[j]);
          assert x == NewTarget(d, bundles[i + 1], d.specs[j]);
        }
      }
    }
  }

  /** Every configured bundle has exactly one target at every location, and it is active with
      at least the stock the location asks for. */
  lemma ExpansionIsComplete(d: Demand, targets: seq<Target>, bundle: nat, spec: LocationSpec)
    requires UniqueScopes(targets) && DistinctLocations(d.specs)
    requires bundle in d.bundles && spec in d.specs
    ensures UniqueScopes(Expand(d, targets))
    ensures exists t :: 0 <= t < |Expand(d, targets)| && Provided(d, bundle, spec, Expand(d, targets)[t])
  {
    var desired := Desired(d, d.bundles);
    InsertTargetsKeeps(targets, desired);
    InsertTargetsCovers(targets, desired);
    var inserted := InsertTargets(targets, desired);
    assert NewTarget(d, bundle, spec) in desired by {
      DesiredHas(d, d.bundles);
    }
    OwnLocation(d.specs, spec);
    hide InsertTargets, Desired, DistinctLocations, Locations;
    SameScopesUnique(inserted, RaiseAll(d, inserted));
    var t :| 0 <= t < |inserted| && inserted[t].scope == ScopeOf(d, bundle, spec);
    RaisingProvides(d, bundle, spec, inserted[t]);
    assert Provided(d, bundle, spec, RaiseAll(d, inserted)[t]);
  }

  /** The target is the active one of the location, with at least the stock it asks for. */
  predicate Provided(d: Demand, bundle: nat, spec: LocationSpec, target: Target) {
    && target.scope == ScopeOf(d, bundle, spec) && target.active
    && target.targetCount >= StockSettings(spec, d.targetCount, d.threshold).0
    && target.replenishBelow >= StockSettings(spec, d.targetCount, d.threshold).1
  }

  lemma RaisingProvides(d: Demand, bundle: nat, spec: LocationSpec, target: Target)
    requires bundle in d.bundles && target.scope == ScopeOf(d, bundle, spec)
    requires (spec.region, spec.city) in Locations(d.specs) && Locations(d.specs)[(spec.region, spec.city)] == spec
    ensures Provided(d, bundle, spec, RaisedLevels(d, target))
  {
  }

  lemma OwnLocation(specs: seq<LocationSpec>, spec: LocationSpec)
    requires DistinctLocations(specs) && spec in specs
    ensures (spec.region, spec.city) in Locations(specs) && Locations(specs)[(spec.region, spec.city)] == spec
  {
    LocationsHold(specs);
    var other := Locations(specs)[(spec.region, spec.city)];
    var i :| 0 <= i < |specs| && specs[i] == spec;
    var j :| 0 <= j < |specs| && specs[j] == other;
  }

  lemma SameScopesUnique(a: seq<Target>, b: seq<Target>)
    requires UniqueScopes(a) && |a| == |b| && forall t :: 0 <= t < |a| ==> b[t].scope == a[t].scope
    ensures UniqueScopes(b)
  {
  }

  predicate SoundLevels(target: Target) {
    1 <= target.replenishBelow <= target.targetCount
  }

  /** No level of an existing target goes down, targets outside the demand stay as they are,
      and thresholds stay between one and the target count. */
  lemma ExpansionIsMonotone(d: Demand, targets: seq<Target>)
    requires UniqueScopes(targets)
    ensures var r := Expand(d, targets);
            && |targets| <= |r|
            && (forall t :: 0 <= t < |targets| ==>
                  && r[t].scope == targets[t].scope
                  && r[t].targetCount >= targets[t].targetCount && r[t].replenishBelow >= targets[t].replenishBelow
                  && (!Selected(d, targets[t]) ==> r[t] == targets[t]))
            && (forall t :: |targets| <= t < |r| ==> Selected(d, r[t]))
            && (1 <= d.threshold <= d.targetCount && (forall t :: 0 <= t < |targets| ==> SoundLevels(targets[t])) ==>
                  forall t :: 0 <= t < |r| ==> SoundLevels(r[t]))
  {
    var desired := Desired(d, d.bundles);
    InsertTargetsKeeps(targets, desired);
    var inserted, r := InsertTargets(targets, desired), Expand(d, targets);
    forall t | |targets| <= t < |r|
      ensures Selected(d, inserted[t]) && (1 <= d.threshold <= d.targetCount ==> SoundLevels(inserted[t]))
    {
      NewTargetsAreSelected(d, inserted[t]);
    }
    forall t | 0 <= t < |r|
      ensures r[t] == RaisedLevels(d, inserted[t])
      ensures 1 <= d.threshold <= d.targetCount && SoundLevels(inserted[t]) ==> SoundLevels(r[t])
    {}
    assert forall t :: 0 <= t < |targets| ==> inserted[t] == targets[t];
  }

  lemma NewTargetsAreSelected(d: Demand, x: Target)
    requires x in Desired(d, d.bundles)
    ensures Selected(d, x) && (1 <= d.threshold <= d.targetCount ==> SoundLevels(x))
  {
    DesiredHas(d, d.bundles);
    assert ComesFrom(d, d.bundles, x);
    hide Desired, Locations;
    LocationsHold(d.specs);
    var i, j :| 0 <= i < |d.bundles| && 0 <= j < |d.specs| && x == NewTarget(d, d.bundles[i], d.specs[j]);
    assert d.specs[j] in d.specs && d.bundles[i] in d.bundles;
  }

  lemma {:induction false} NothingToInsert(targets: seq<Target>, desired: seq<Target>)
    requires forall x :: x in desired ==> HasScope(targets, x.scope)
    ensures InsertTargets(targets, desired) == targets
    decreases |desired|
  {
    if desired != [] {
      assert desired[0] in desired;
      NothingToInsert(targets, desired[1..]);
    }
  }

  /** A second expansion changes nothing. */
  lemma ExpansionIsIdempotent(d: Demand, targets: seq<Target>)
    requires UniqueScopes(targets)
    ensures Expand(d, Expand(d, targets)) == Expand(d, targets)
  {
    var desired := Desired(d, d.bundles);
    InsertTargetsCovers(targets, desired);
    var inserted, r := InsertTargets(targets, desired), Expand(d, targets);
    forall x | x in desired ensures HasScope(r, x.scope) {
      var i :| 0 <= i < |inserted| && inserted[i].scope == x.scope;
      assert r[i].scope == x.scope;
    }
    NothingToInsert(r, desired);
    assert forall t :: 0 <= t < |r| ==> RaiseAll(d, r)[t] == r[t];
  }

  // ------------------------------------------------------------------ the specs name distinct locations

  lemma {:induction false} CodesFromRows(cat: Catalog, rows: seq<RegionRow>, provider: string, country: string)
    requires forall i :: 0 <= i < |rows| ==> rows[i].code != ""
    ensures "" !in RegionCodes(cat, rows, provider, country)
  {
    if rows != [] {
      CodesFromRows(cat, rows[..|rows| - 1], provider, country);
    }
  }

  lemma {:induction false} NamesFromRows(cat: Catalog, rows: seq<CityRow>, provider: string, country: string, region: Option<string>)
    requires forall i :: 0 <= i < |rows| ==> rows[i].name != ""
    ensures "" !in CityNames(cat, rows, provider, country, region)
  {
    if rows != [] {
      NamesFromRows(cat, rows[..|rows| - 1], provider, country, region);
    }
  }

  lemma RegionThenCitySpecs(head: seq<LocationSpec>, codes: seq<string>, names: seq<string>)
    requires |head| <= 1 && forall i :: 0 <= i < |head| ==> head[i].city == "" && head[i].region !in codes
    requires "" !in codes && "" !in names
    requires forall i, j :: 0 <= i < j < |codes| ==> codes[i] != codes[j]
    requires forall i, j :: 0 <= i < j < |names| ==> names[i] != names[j]
    ensures DistinctLocations(head + RegionSpecs(codes) + CitySpecs(names))
  {
    var specs := head + RegionSpecs(codes) + CitySpecs(names);
    forall i | 0 <= i < |specs|
      ensures if i < |head| then specs[i] == head[i]
              else if i < |head| + |codes| then specs[i] == LocationSpec(codes[i - |head|], "", Region) && specs[i].region in codes
              else specs[i] == LocationSpec("", names[i - |head| - |codes|], City) && specs[i].city in names
    {}
  }

  /** With named regions and cities, the locations of any selection are distinct. */
  lemma SpecsAreDistinct(cat: Catalog, fold: string -> string, provider: string, country: string, region: string, city: string)
    requires forall i :: 0 <= i < |cat.regions| ==> cat.regions[i].code != ""
    requires forall i :: 0 <= i < |cat.cities| ==> cat.cities[i].name != ""
    ensures DistinctLocations(LocationSpecs(cat, fold, provider, country, region, city))
  {
    hide RegionCodes, CityNames, Distinct, Canonical, DistinctLocations, RegionSpecs, CitySpecs;
    var codes := Distinct(RegionCodes(cat, cat.regions, provider, country));
    CodesFromRows(cat, cat.regions, provider, country);
    var scope := if region == "" then None else Some(region);
    var names := Distinct(CityNames(cat, cat.cities, provider, country, scope));
    NamesFromRows(cat, cat.cities, provider, country, scope);
    NoneInDistinct(RegionCodes(cat, cat.regions, provider, country));
    NoneInDistinct(CityNames(cat, cat.cities, provider, country, scope));
    var specs := LocationSpecs(cat, fold, provider, country, region, city);
    SingleIsDistinct(specs);
    if region == "" {
      RegionThenCitySpecs([LocationSpec("", "", Country)], codes, names);
    } else {
      RegionThenCitySpecs([LocationSpec(region, "", Region)], [], names);
      NoRegionSpecs([LocationSpec(region, "", Region)]);
    }
  }

  lemma NoneInDistinct(xs: seq<string>)
    ensures "" !in xs ==> "" !in Distinct(xs)
  {
    hide Distinct;
  }

  lemma NoRegionSpecs(head: seq<LocationSpec>)
    ensures head + RegionSpecs([]) == head
  {
  }

  lemma SingleIsDistinct(specs: seq<LocationSpec>)
    ensures |specs| <= 1 ==> DistinctLocations(specs)
  {
  }
}
