/** The reconciliation pass on mutable tables (`sync_p3_country_geography` in
    control/p3_geo_catalog.py). */
module P3GeographyDesk {
  import opened Wrappers
  import opened P3Geography
  import Routing = P3Routing

  /** Dealing with one more key rewrites at most the row it stands for, untouched so far. */
  lemma RewriteNext(kind: Kind, fold: string -> string, scope: Scope, rows: seq<Row>, w: Wanted, done: seq<string>, key: string)
    requires (forall k :: k in done ==> k in w.names) && key in w.names && key !in done
    ensures var current := Current(kind, fold, scope, rows);
            var before, after := RewriteAll(kind, fold, scope, rows, w, done), RewriteAll(kind, fold, scope, rows, w, done + [key]);
            && |before| == |rows|
            && (key !in current ==> after == before)
            && (key in current ==>
                  && before[current[key]] == rows[current[key]]
                  && after == before[current[key] := Fixed(rows[current[key]], w.names[key])])
  {
    var current := Current(kind, fold, scope, rows);
    hide Fixed, Current, Key;
    var before, after := RewriteAll(kind, fold, scope, rows, w, done), RewriteAll(kind, fold, scope, rows, w, done + [key]);
    forall i | 0 <= i < |rows|
      ensures after[i] == if key in current && current[key] == i then Fixed(rows[i], w.names[key]) else before[i]
    {
      assert key in current && current[key] == i ==> Key(kind, fold, rows[i]) == key;
    }
    assert key !in current ==> after == before;
  }

  lemma DoneNext(kind: Kind, current: map<string, nat>, scope: Scope, rows: seq<Row>, names: map<string, string>, done: seq<string>, key: string)
    requires (forall k :: k in done ==> k in names) && key in names && forall k :: k in current ==> current[k] < |rows|
    ensures Created(kind, current, scope, names, done + [key]) ==
              Created(kind, current, scope, names, done) + (if key in current then [] else [NewRow(kind, scope, key, names[key])])
    ensures Differing(current, rows, names, done + [key]) ==
              Differing(current, rows, names, done) +
              (if key in current && rows[current[key]] != Fixed(rows[current[key]], names[key]) then 1 else 0)
  {
    assert (done + [key])[..|done|] == done;
  }

  // ------------------------------------------------------------------ the mutable tables

  lemma PutKeepsOrder(w: Wanted, key: string, name: string)
    requires Ordered(w)
    ensures Ordered(Put(w, key, name))
  {
  }

  lemma NothingIsOrdered()
    ensures Ordered(NOTHING)
  {
  }

  method CollectRegions(country: string, items: seq<Item>) returns (w: Wanted)
    ensures w == WantedRegions(country, items) && Ordered(w)
  {
    NothingIsOrdered();
    hide RegionCode, RegionName, Ordered, Put, SPAIN;
    w := NOTHING;
    for i := 0 to |items|
      invariant w == WantedRegions(country, items[..i]) && Ordered(w)
    {
      assert items[..i + 1][..i] == items[..i];
      var code, name := RegionCode(items[i]), RegionName(items[i]);
      if code != "" && name != "" && (country != "ES" || code in SPAIN) {
        PutKeepsOrder(w, code, name);
        w := Put(w, code, name);
      }
    }
    assert items[..|items|] == items;
  }

  method CollectCities(fold: string -> string, items: seq<Item>) returns (w: Wanted)
    ensures w == WantedCities(fold, items) && Ordered(w)
  {
    NothingIsOrdered();
    hide CityName, Ordered, Put;
    w := NOTHING;
    for i := 0 to |items|
      invariant w == WantedCities(fold, items[..i]) && Ordered(w)
    {
      assert items[..i + 1][..i] == items[..i];
      var city := CityName(items[i]);
      if city != "" {
        PutKeepsOrder(w, fold(city), city);
        w := Put(w, fold(city), city);
      }
    }
    assert items[..|items|] == items;
  }

  /** Where the loop over the wanted keys stands after `done`. */
  ghost predicate Progress(kind: Kind, fold: string -> string, scope: Scope, rows: seq<Row>, w: Wanted, done: seq<string>,
                           table: seq<Row>, create: seq<Row>, updated: nat)
    requires forall k :: k in done ==> k in w.names
  {
    var current := Current(kind, fold, scope, rows);
    && table == RewriteAll(kind, fold, scope, rows, w, done)
    && create == Created(kind, current, scope, w.names, done)
    && updated == Differing(current, rows, w.names, done)
  }

  lemma ProgressNext(kind: Kind, fold: string -> string, scope: Scope, rows: seq<Row>, w: Wanted, done: seq<string>,
                     table: seq<Row>, create: seq<Row>, updated: nat, key: string)
    requires (forall k :: k in done ==> k in w.names) && key in w.names && key !in done
    requires Progress(kind, fold, scope, rows, w, done, table, create, updated)
    ensures var current := Current(kind, fold, scope, rows);
            && |table| == |rows|
            && (key !in current ==>
                  Progress(kind, fold, scope, rows, w, done + [key], table, create + [NewRow(kind, scope, key, w.names[key])], updated))
            && (key in current ==>
                  var row := table[current[key]];
                  if row == Fixed(row, w.names[key]) then Progress(kind, fold, scope, rows, w, done + [key], table, create, updated)
                  else Progress(kind, fold, scope, rows, w, done + [key], table[current[key] := Fixed(row, w.names[key])], create, updated + 1))
  {
    hide Current, RewriteAll, Created, Differing, Fixed, NewRow;
    var current := Current(kind, fold, scope, rows);
    RewriteNext(kind, fold, scope, rows, w, done, key);
    DoneNext(kind, current, scope, rows, w.names, done, key);
    if key in current && table[current[key]] == Fixed(table[current[key]], w.names[key]) {
      assert table == table[current[key] := Fixed(table[current[key]], w.names[key])];
    }
  }

  method Reconcile(kind: Kind, fold: string -> string, scope: Scope, rows: seq<Row>, w: Wanted)
      returns (table: seq<Row>, create: seq<Row>, updated: nat)
    requires Ordered(w)
    ensures Progress(kind, fold, scope, rows, w, w.order, table, create, updated)
  {
    var current := Current(kind, fold, scope, rows);
    table, create, updated := rows, [], 0;
    assert w.order[..0] == [];
    assert table == RewriteAll(kind, fold, scope, rows, w, []);
    for n := 0 to |w.order|
      invariant Progress(kind, fold, scope, rows, w, w.order[..n], table, create, updated)
    {
      var key := w.order[n];
      var name := w.names[key];
      assert w.order[..n + 1] == w.order[..n] + [key] && key !in w.order[..n];
      ProgressNext(kind, fold, scope, rows, w, w.order[..n], table, create, updated, key);
      hide Progress, Current;
      if key !in current {
        create := create + [NewRow(kind, scope, key, name)];
      } else {
        var row := table[current[key]];
        if row.name != name || row.source != SOURCE || !row.active {
          row := row.(name := name, source := SOURCE, active := true);
          table := table[current[key] := row];
          updated := updated + 1;
        }
      }
    }
    assert w.order[..|w.order|] == w.order;
  }

  class GeographyTable {
    var rows: seq<Row>

    constructor (start: seq<Row>)
      ensures rows == start
    {
      rows := start;
    }

    /** Create and update; returns how many rows were written.  The rows are rewritten in
        memory first and saved in bulk. */
    method WriteWanted(kind: Kind, fold: string -> string, scope: Scope, w: Wanted) returns (written: nat)
      requires Ordered(w)
      modifies this
      ensures rows == Written(kind, fold, scope, old(rows), w)
      ensures written == Sync(kind, fold, scope, old(rows), w).1
    {
      var table, create, updated := Reconcile(kind, fold, scope, rows, w);
      rows := table + create;
      written := |create| + updated;
    }

    method SwitchOffStale(kind: Kind, scope: Scope, w: Wanted) returns (stale: nat)
      modifies this
      ensures rows == SwitchOff(kind, scope, w, old(rows)) && stale == CountStale(kind, scope, w, old(rows))
    {
      ghost var start := rows;
      stale := 0;
      for i := 0 to |rows|
        invariant |rows| == |start| && stale == CountStale(kind, scope, w, start[..i])
        invariant forall k | 0 <= k < i :: rows[k] == SwitchOff(kind, scope, w, start)[k]
        invariant forall k | i <= k < |rows| :: rows[k] == start[k]
      {
        assert start[..i + 1][..i] == start[..i];
        if Stale(kind, scope, w, rows[i]) {
          rows := rows[i := rows[i].(active := false)];
          stale := stale + 1;
        }
      }
      assert start[..|start|] == start;
    }

    method SyncTable(kind: Kind, fold: string -> string, scope: Scope, w: Wanted) returns (written: nat, stale: nat)
      requires Ordered(w)
      modifies this
      ensures (rows, written, stale) == Sync(kind, fold, scope, old(rows), w)
    {
      written := WriteWanted(kind, fold, scope, w);
      stale := SwitchOffStale(kind, scope, w);
    }
  }

  /** `sync_p3_country_geography`; `None` when the country is missing. */
  method SyncCountryGeography(regions: GeographyTable, cities: GeographyTable, fold: string -> string,
                              countryCode: string, regionItems: seq<Item>, cityItems: seq<Item>)
      returns (counts: Option<(nat, nat, nat, nat)>)
    requires regions != cities
    modifies regions, cities
    ensures Routing.Normal(countryCode) == "" ==> counts.None? && regions.rows == old(regions.rows) && cities.rows == old(cities.rows)
    ensures Routing.Normal(countryCode) != "" ==>
              && Ordered(WantedRegions(Routing.Normal(countryCode), regionItems)) && Ordered(WantedCities(fold, cityItems))
              && counts.Some?
              && (regions.rows, counts.value.0, counts.value.1) ==
                   Sync(Regions, fold, ScopeOf(Regions, Routing.Normal(countryCode)), old(regions.rows), WantedRegions(Routing.Normal(countryCode), regionItems))
              && (cities.rows, counts.value.2, counts.value.3) ==
                   Sync(Cities, fold, ScopeOf(Cities, Routing.Normal(countryCode)), old(cities.rows), WantedCities(fold, cityItems))
  {
    var country := Routing.Normal(countryCode);
    if country == "" {
      return None;
    }
    var wantedRegions := CollectRegions(country, regionItems);
    var writtenRegions, staleRegions := regions.SyncTable(Regions, fold, ScopeOf(Regions, country), wantedRegions);
    var wantedCities := CollectCities(fold, cityItems);
    var writtenCities, staleCities := cities.SyncTable(Cities, fold, ScopeOf(Cities, country), wantedCities);
    counts := Some((writtenRegions, staleRegions, writtenCities, staleCities));
  }
}
