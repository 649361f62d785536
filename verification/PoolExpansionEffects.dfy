/** Which locations the panel's values stand for, and what the expansion writes, target by
    target, from the tables before it. */
module PoolExpansionEffects {
  import opened Wrappers
  import opened Sequences
  import opened ProxyPool
  import opened ProxyPoolFacts
  import opened PoolExpansion
  import opened PoolExpansionDesk

  // ------------------------------------------------------------------ locations

  /** The catalog lists a region for a provider. */
  ghost predicate ListsRegion(cat: Catalog, provider: string, country: string, code: string) {
    provider in cat.activeProviders &&
    exists i :: 0 <= i < |cat.regions| && cat.regions[i] == RegionRow(provider, country, code, true)
  }

  /** Row `i` is a city of P3, whose catalog P1 shares. */
  predicate ListsCityAt(cat: Catalog, country: string, region: Option<string>, i: nat) {
    && i < |cat.cities| && "P3" in cat.activeProviders
    && cat.cities[i].provider == "P3" && cat.cities[i].account == "p3-global-v1" && cat.cities[i].country == country && cat.cities[i].active
    && (region.Some? ==> cat.cities[i].region == region.value)
  }

  ghost predicate HasCity(cat: Catalog, country: string, region: Option<string>, name: string) {
    exists i: nat :: ListsCityAt(cat, country, region, i) && cat.cities[i].name == name
  }

  /** The first listed city of the country with the name up to case. */
  ghost predicate FirstCity(cat: Catalog, fold: string -> string, country: string, city: string, n: nat, name: string) {
    exists i: nat ::
      && i < n && ListsCityAt(cat, country, None, i) && cat.cities[i].name == name && fold(name) == fold(city)
      && forall j | 0 <= j < i :: ListsCityAt(cat, country, None, j) ==> fold(cat.cities[j].name) != fold(city)
  }

  lemma {:induction false} RegionCodesAre(cat: Catalog, n: nat, provider: string, country: string, code: string)
    requires n <= |cat.regions|
    ensures code in RegionCodes(cat, cat.regions[..n], provider, country) <==>
              provider in cat.activeProviders && exists i :: 0 <= i < n && cat.regions[i] == RegionRow(provider, country, code, true)
  {
    if n > 0 {
      RegionCodesAre(cat, n - 1, provider, country, code);
      assert cat.regions[..n][..n - 1] == cat.regions[..n - 1];
    }
  }

  lemma {:induction false} CityNamesAre(cat: Catalog, n: nat, provider: string, country: string,
                                        region: Option<string>, name: string)
    requires n <= |cat.cities| && (provider == "P1" || provider == "P3")
    ensures name in CityNames(cat, cat.cities[..n], provider, country, region) <==>
              exists i: nat :: i < n && ListsCityAt(cat, country, region, i) && cat.cities[i].name == name
  {
    if n > 0 {
      CityNamesAre(cat, n - 1, provider, country, region, name);
      assert cat.cities[..n][..n - 1] == cat.cities[..n - 1];
      assert ListsCity(cat, cat.cities[n - 1], provider, country) && (region.None? || cat.cities[n - 1].region == region.value) <==>
             ListsCityAt(cat, country, region, n - 1);
    }
  }

  lemma {:induction false} CanonicalAppends(names: seq<string>, name: string, city: string, fold: string -> string)
    ensures Canonical(names + [name], city, fold) ==
              if Canonical(names, city, fold).Some? then Canonical(names, city, fold)
              else if fold(name) == fold(city) then Some(name) else None
    decreases |names|
  {
    if names != [] {
      assert (names + [name])[1..] == names[1..] + [name];
      CanonicalAppends(names[1..], name, city, fold);
    }
  }

  lemma FirstCityNext(cat: Catalog, fold: string -> string, country: string, city: string, n: nat, name: string)
    requires n < |cat.cities|
    ensures FirstCity(cat, fold, country, city, n + 1, name) <==>
              FirstCity(cat, fold, country, city, n, name) ||
              (ListsCityAt(cat, country, None, n) && cat.cities[n].name == name && fold(name) == fold(city) &&
               forall j: nat | j < n :: ListsCityAt(cat, country, None, j) ==> fold(cat.cities[j].name) != fold(city))
  {
    hide ListsCityAt;
  }

  lemma CityNamesNext(cat: Catalog, n: nat, provider: string, country: string)
    requires n < |cat.cities| && (provider == "P1" || provider == "P3")
    ensures CityNames(cat, cat.cities[..n + 1], provider, country, None) ==
              CityNames(cat, cat.cities[..n], provider, country, None) + (if ListsCityAt(cat, country, None, n) then [cat.cities[n].name] else [])
  {
    assert cat.cities[..n + 1][..n] == cat.cities[..n];
    assert ListsCity(cat, cat.cities[n], provider, country) <==> ListsCityAt(cat, country, None, n);
  }

  /** No listed city among the first `n` has the name up to case. */
  ghost predicate NoCity(cat: Catalog, fold: string -> string, country: string, city: string, n: nat) {
    forall i: nat | i < n :: ListsCityAt(cat, country, None, i) ==> fold(cat.cities[i].name) != fold(city)
  }

  lemma {:induction false} CanonicalIsFirst(cat: Catalog, n: nat, provider: string, country: string, city: string,
          fold: string -> string, name: string)
    requires n <= |cat.cities| && (provider == "P1" || provider == "P3")
    ensures var found := Canonical(CityNames(cat, cat.cities[..n], provider, country, None), city, fold);
            && (found == Some(name) <==> FirstCity(cat, fold, country, city, n, name))
            && (found.None? <==> NoCity(cat, fold, country, city, n))
  {
    if n > 0 {
      var row := cat.cities[n - 1];
      CanonicalIsFirst(cat, n - 1, provider, country, city, fold, name);
      CityNamesNext(cat, n - 1, provider, country);
      FirstCityNext(cat, fold, country, city, n - 1, name);
      var before := CityNames(cat, cat.cities[..n - 1], provider, country, None);
      CanonicalAppends(before, row.name, city, fold);
      assert before + [] == before;
      hide CityNames, Canonical, ListsCityAt, FirstCity;
    }
  }

  lemma SpecsListed(codes: seq<string>, names: seq<string>, spec: LocationSpec)
    ensures spec in RegionSpecs(codes) <==> spec == LocationSpec(spec.region, "", Region) && spec.region in codes
    ensures spec in CitySpecs(names) <==> spec == LocationSpec("", spec.city, City) && spec.city in names
  {
    if spec == LocationSpec(spec.region, "", Region) && spec.region in codes {
      var i :| 0 <= i < |codes| && codes[i] == spec.region;
      assert RegionSpecs(codes)[i] == spec;
    }
    if spec == LocationSpec("", spec.city, City) && spec.city in names {
      var i :| 0 <= i < |names| && names[i] == spec.city;
      assert CitySpecs(names)[i] == spec;
    }
  }

  /** The catalog's answers, distinct or not, as lists of keys. */
  lemma CatalogAnswers(cat: Catalog, provider: string, country: string, region: Option<string>, key: string)
    requires provider == "P1" || provider == "P3"
    ensures key in Distinct(RegionCodes(cat, cat.regions, provider, country)) <==> ListsRegion(cat, provider, country, key)
    ensures key in Distinct(CityNames(cat, cat.cities, provider, country, region)) <==> HasCity(cat, country, region, key)
  {
    assert cat.regions[..|cat.regions|] == cat.regions && cat.cities[..|cat.cities|] == cat.cities;
    RegionCodesAre(cat, |cat.regions|, provider, country, key);
    CityNamesAre(cat, |cat.cities|, provider, country, region, key);
    hide Distinct, RegionCodes, CityNames;
  }

  lemma CanonicalIs(cat: Catalog, provider: string, country: string, city: string, fold: string -> string, name: string)
    requires provider == "P1" || provider == "P3"
    ensures Canonical(CityNames(cat, cat.cities, provider, country, None), city, fold) == Some(name) <==>
              FirstCity(cat, fold, country, city, |cat.cities|, name)
  {
    CanonicalIsFirst(cat, |cat.cities|, provider, country, city, fold, name);
    assert cat.cities[..|cat.cities|] == cat.cities;
  }

  lemma CitySpec(cat: Catalog, fold: string -> string, provider: string, country: string, region: string,
                 city: string, spec: LocationSpec)
    requires (provider == "P1" || provider == "P3") && country != "" && city != "" && (region == "" || ListsRegion(cat, provider, country, region))
    ensures spec in LocationSpecs(cat, fold, provider, country, region, city) <==>
              spec == LocationSpec("", spec.city, City) && spec.city != "" && FirstCity(cat, fold, country, city, |cat.cities|, spec.city)
  {
    CatalogAnswers(cat, provider, country, None, region);
    CanonicalIs(cat, provider, country, city, fold, spec.city);
    var codes := Distinct(RegionCodes(cat, cat.regions, provider, country));
    var found := Canonical(CityNames(cat, cat.cities, provider, country, None), city, fold);
    hide Distinct, RegionCodes, CityNames, Canonical, ListsRegion, HasCity, FirstCity;
    assert LocationSpecs(cat, fold, provider, country, region, city) ==
           if found.None? || found.value == "" then [] else [LocationSpec("", found.value, City)];
  }

  lemma RegionSpec(cat: Catalog, fold: string -> string, provider: string, country: string, region: string, spec: LocationSpec)
    requires (provider == "P1" || provider == "P3") && country != "" && region != "" && ListsRegion(cat, provider, country, region)
    ensures spec in LocationSpecs(cat, fold, provider, country, region, "") <==>
              || spec == LocationSpec(region, "", Region)
              || (spec == LocationSpec("", spec.city, City) && HasCity(cat, country, Some(region), spec.city))
  {
    var names := Distinct(CityNames(cat, cat.cities, provider, country, Some(region)));
    CatalogAnswers(cat, provider, country, None, region);
    CatalogAnswers(cat, provider, country, Some(region), spec.city);
    SpecsListed([], names, spec);
    hide Distinct, RegionCodes, CityNames, RegionSpecs, CitySpecs, ListsRegion, HasCity;
    assert LocationSpecs(cat, fold, provider, country, region, "") == [LocationSpec(region, "", Region)] + CitySpecs(names);
  }

  lemma CountrySpec(cat: Catalog, fold: string -> string, provider: string, country: string, spec: LocationSpec)
    requires (provider == "P1" || provider == "P3") && country != ""
    ensures spec in LocationSpecs(cat, fold, provider, country, "", "") <==>
              || spec == LocationSpec("", "", Country)
              || (spec == LocationSpec(spec.region, "", Region) && ListsRegion(cat, provider, country, spec.region))
              || (spec == LocationSpec("", spec.city, City) && HasCity(cat, country, None, spec.city))
  {
    var codes := Distinct(RegionCodes(cat, cat.regions, provider, country));
    var names := Distinct(CityNames(cat, cat.cities, provider, country, None));
    CatalogAnswers(cat, provider, country, None, spec.region);
    CatalogAnswers(cat, provider, country, None, spec.city);
    SpecsListed(codes, names, spec);
    hide Distinct, RegionCodes, CityNames, RegionSpecs, CitySpecs, ListsRegion, HasCity;
    assert LocationSpecs(cat, fold, provider, country, "", "") == [LocationSpec("", "", Country)] + RegionSpecs(codes) + CitySpecs(names);
  }

  lemma OtherSpecs(cat: Catalog, fold: string -> string, provider: string, country: string, region: string,
                   city: string, spec: LocationSpec)
    requires provider == "" || country == "" || (provider != "P1" && provider != "P3") || (region != "" && !ListsRegion(cat, provider, country, region))
    ensures spec in LocationSpecs(cat, fold, provider, country, region, city) <==>
              provider != "" && country != "" && provider != "P1" && provider != "P3" && spec == LocationSpec(region, city, Exact)
  {
    if provider == "P1" || provider == "P3" {
      CatalogAnswers(cat, provider, country, None, region);
    }
    hide Distinct, RegionCodes, CityNames, RegionSpecs, CitySpecs, ListsRegion, Canonical;
  }

  /** The locations behind a selection: for P1 and P3 a listed city alone, under its listed
      spelling; a listed region with its cities; or the country with its regions and cities.
      Other providers take the values as they are, and an unlisted region stands for none. */
  lemma SpecsExactly(cat: Catalog, fold: string -> string, provider: string, country: string, region: string,
                     city: string, spec: LocationSpec)
    ensures spec in LocationSpecs(cat, fold, provider, country, region, city) <==>
              && provider != "" && country != ""
              && if provider != "P1" && provider != "P3" then spec == LocationSpec(region, city, Exact)
                 else
                   && (region == "" || ListsRegion(cat, provider, country, region))
                   && if city != "" then
                        spec == LocationSpec("", spec.city, City) && spec.city != "" && FirstCity(cat, fold, country, city, |cat.cities|, spec.city)
                      else if region != "" then
                        || spec == LocationSpec(region, "", Region)
                        || (spec == LocationSpec("", spec.city, City) && HasCity(cat, country, Some(region), spec.city))
                      else
                        || spec == LocationSpec("", "", Country)
                        || (spec == LocationSpec(spec.region, "", Region) && ListsRegion(cat, provider, country, spec.region))
                        || (spec == LocationSpec("", spec.city, City) && HasCity(cat, country, None, spec.city))
  {
    hide LocationSpecs, ListsRegion, HasCity, FirstCity;
    if provider == "" || country == "" || (provider != "P1" && provider != "P3") || (region != "" && !ListsRegion(cat, provider, country, region)) {
      OtherSpecs(cat, fold, provider, country, region, city, spec);
    } else if city != "" {
      CitySpec(cat, fold, provider, country, region, city, spec);
    } else if region != "" {
      RegionSpec(cat, fold, provider, country, region, spec);
    } else {
      CountrySpec(cat, fold, provider, country, spec);
    }
  }

  // ------------------------------------------------------------------ targets

  /** The demand asks for a location in a bundle. */
  predicate IsAsked(d: Demand, scope: Scope, spec: LocationSpec) {
    scope.bundle in d.bundles && spec in d.specs && scope == Scope(scope.bundle, d.provider, d.country, spec.region, spec.city)
  }

  /** The levels that a location is to have: a city at most 40 and 8. */
  function AskedLevels(d: Demand, spec: LocationSpec): (nat, nat) {
    if spec.level == City then
      var count := if d.targetCount < 40 then d.targetCount else 40;
      var threshold := if d.threshold < 8 then d.threshold else 8;
      (count, if count < 1 || threshold < 1 then 1 else if count < threshold then count else threshold)
    else (d.targetCount, d.threshold)
  }

  /** The target afterwards: never less than asked nor than it had, switched on, and claimed for a
      refill unless another one owns it.  A claim that the broker does not take is given back. */
  function Expanded(d: Demand, before: Target, spec: LocationSpec, now: int, staleBefore: int, delivered: bool): Target {
    var (count, threshold) := AskedLevels(d, spec);
    var raised := before.(targetCount := if before.targetCount < count then count else before.targetCount,
                          replenishBelow := if before.replenishBelow < threshold then threshold else before.replenishBelow,
                          active := true);
    if !before.refillPending || before.refillRequestedAt.None? || before.refillRequestedAt.value <= staleBefore
    then raised.(refillPending := delivered, refillRequestedAt := if delivered then Some(now) else None)
    else raised
  }

  /** The row of a location that had no target. */
  function Inserted(d: Demand, scope: Scope, spec: LocationSpec): Target {
    Target(scope, AskedLevels(d, spec).0, AskedLevels(d, spec).1, true, false, None)
  }

  lemma LevelsAreAsked(d: Demand, spec: LocationSpec)
    ensures StockSettings(spec, d.targetCount, d.threshold) == AskedLevels(d, spec)
  {
  }

  lemma SelectedIsAsked(d: Demand, target: Target)
    ensures Selected(d, target) <==> exists spec :: IsAsked(d, target.scope, spec)
    ensures forall spec | IsAsked(d, target.scope, spec) && DistinctLocations(d.specs) ::
              Selected(d, target) && Locations(d.specs)[(target.scope.region, target.scope.city)] == spec
  {
    LocationsHold(d.specs);
    if Selected(d, target) {
      assert IsAsked(d, target.scope, Locations(d.specs)[(target.scope.region, target.scope.city)]);
    }
    forall spec | IsAsked(d, target.scope, spec) && DistinctLocations(d.specs)
      ensures Selected(d, target) && Locations(d.specs)[(target.scope.region, target.scope.city)] == spec
    {
      OwnLocation(d.specs, spec);
    }
  }

  lemma {:induction false} QueuesEach(targets: seq<Target>, picked: seq<nat>, now: int, staleBefore: int, delivered: nat -> bool)
    requires forall i, j | 0 <= i < j < |picked| :: picked[i] != picked[j]
    ensures var r := QueueAll(targets, picked, now, staleBefore, delivered);
            && |r| == |targets|
            && forall t: nat | t < |targets| ::
                 r[t] ==
                   if t in picked && targets[t].active &&
                      (!targets[t].refillPending || targets[t].refillRequestedAt.None? || targets[t].refillRequestedAt.value <= staleBefore)
                   then targets[t].(refillPending := delivered(t), refillRequestedAt := if delivered(t) then Some(now) else None)
                   else targets[t]
    decreases |picked|
  {
    if picked != [] {
      assert forall t :: t in picked <==> t == picked[0] || t in picked[1..];
      QueuesEach(QueueRefill(targets, picked[0], now, staleBefore, delivered(picked[0])).0, picked[1..], now, staleBefore, delivered);
    }
  }

  lemma {:induction false} PickedOnce(d: Demand, targets: seq<Target>, n: nat)
    requires n <= |targets|
    ensures forall i, j | 0 <= i < j < |Picked(d, targets, n)| :: Picked(d, targets, n)[i] != Picked(d, targets, n)[j]
  {
    if n > 0 {
      PickedOnce(d, targets, n - 1);
    }
  }

  /** Which rows there are before the levels are raised. */
  lemma InsertedRows(d: Demand, targets: seq<Target>, t: nat)
    requires UniqueScopes(targets) && DistinctLocations(d.specs)
    ensures var inserted := InsertTargets(targets, Desired(d, d.bundles));
            && |targets| <= |inserted| && (t < |targets| ==> inserted[t] == targets[t])
            && (|targets| <= t < |inserted| ==>
                  exists spec :: IsAsked(d, inserted[t].scope, spec) && inserted[t] == Inserted(d, inserted[t].scope, spec))
  {
    var inserted := InsertTargets(targets, Desired(d, d.bundles));
    hide InsertTargets, Desired, DistinctLocations, ComesFrom, UniqueScopes;
    InsertTargetsKeeps(targets, Desired(d, d.bundles));
    DesiredHas(d, d.bundles);
    if |targets| <= t < |inserted| {
      DesiredIsAsked(d, inserted[t]);
    }
  }

  lemma DesiredIsAsked(d: Demand, x: Target)
    requires ComesFrom(d, d.bundles, x)
    ensures exists spec :: IsAsked(d, x.scope, spec) && x == Inserted(d, x.scope, spec)
  {
    hide StockSettings, AskedLevels;
    var i, j :| 0 <= i < |d.bundles| && 0 <= j < |d.specs| && x == NewTarget(d, d.bundles[i], d.specs[j]);
    LevelsAreAsked(d, d.specs[j]);
    assert IsAsked(d, x.scope, d.specs[j]);
  }

  lemma RaisedAsAsked(d: Demand, before: Target, spec: LocationSpec)
    requires IsAsked(d, before.scope, spec) && DistinctLocations(d.specs)
    ensures var (count, threshold) := AskedLevels(d, spec);
            RaisedLevels(d, before) ==
              before.(targetCount := if before.targetCount < count then count else before.targetCount,
                      replenishBelow := if before.replenishBelow < threshold then threshold else before.replenishBelow,
                      active := true)
  {
    SelectedIsAsked(d, before);
    LevelsAreAsked(d, spec);
    hide Locations, StockSettings, AskedLevels, DistinctLocations, Selected;
  }

  /** Every asked location without a target gets one; asked targets end with at least the levels
      asked for and claimed for a refill; and all other targets stay as they are. */
  lemma ExpandsExactly(d: Demand, targets: seq<Target>, now: int, staleBefore: int, delivered: nat -> bool, t: nat)
    requires UniqueScopes(targets) && DistinctLocations(d.specs)
    ensures var r := Provisioned(d, targets, now, staleBefore, delivered);
            && |targets| <= |r|
            && (t < |r| ==> forall spec | IsAsked(d, r[t].scope, spec) ::
                  r[t] == Expanded(d, if t < |targets| then targets[t] else Inserted(d, r[t].scope, spec), spec, now, staleBefore, delivered(t)))
            && (|targets| <= t < |r| ==> exists spec :: IsAsked(d, r[t].scope, spec))
            && (t < |targets| ==> r[t].scope == targets[t].scope)
            && (t < |targets| && (forall spec :: !IsAsked(d, targets[t].scope, spec)) ==> r[t] == targets[t])
  {
    var inserted, raised := InsertTargets(targets, Desired(d, d.bundles)), Expand(d, targets);
    var picked := Picked(d, raised, |raised|);
    var r := Provisioned(d, targets, now, staleBefore, delivered);
    InsertedRows(d, targets, t);
    PickedOnce(d, raised, |raised|);
    QueuesEach(raised, picked, now, staleBefore, delivered);
    assert raised == RaiseAll(d, inserted) && |raised| == |inserted|;
    if t < |r| {
      assert raised[t] == RaisedLevels(d, inserted[t]);
      assert raised[t].scope == inserted[t].scope;
      SelectedIsAsked(d, inserted[t]);
      SelectedIsAsked(d, raised[t]);
      hide Provisioned, InsertTargets, Desired, Expand, RaiseAll, Picked, QueueAll, AskedLevels, Selected,
           DistinctLocations, UniqueScopes;
      forall spec | IsAsked(d, r[t].scope, spec)
        ensures r[t] == Expanded(d, if t < |targets| then targets[t] else Inserted(d, r[t].scope, spec), spec, now, staleBefore, delivered(t))
      {
        RaisedAsAsked(d, inserted[t], spec);
        if t >= |targets| {
          OneSpec(d, inserted[t], spec);
        }
      }
    }
  }

  /** A location is asked for once. */
  lemma OneSpec(d: Demand, target: Target, spec: LocationSpec)
    requires DistinctLocations(d.specs) && IsAsked(d, target.scope, spec)
    requires exists other :: IsAsked(d, target.scope, other) && target == Inserted(d, target.scope, other)
    ensures target == Inserted(d, target.scope, spec)
  {
    var other :| IsAsked(d, target.scope, other) && target == Inserted(d, target.scope, other);
    SelectedIsAsked(d, target);
  }
}
