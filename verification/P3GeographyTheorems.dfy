/** The incremental pass is a full replacement of the country's active rows. */
module P3GeographyTheorems {
  import opened P3Geography

  /** No two rows of the scope share a key: codes are unique, and city names up to case. */
  ghost predicate UniqueKeys(kind: Kind, fold: string -> string, scope: Scope, rows: seq<Row>) {
    forall i, j | 0 <= i < j < |rows| :: rows[i].scope == scope && rows[j].scope == scope ==> Key(kind, fold, rows[i]) != Key(kind, fold, rows[j])
  }

  /** The name wanted under a key has that key. */
  ghost predicate Keyed(kind: Kind, fold: string -> string, w: Wanted) {
    Ordered(w) && (kind == Cities ==> forall k :: k in w.names ==> fold(w.names[k]) == k)
  }

  predicate NamesRegion(country: string, item: Item, code: string) {
    code == RegionCode(item) != "" && RegionName(item) != "" && Allowed(country, code)
  }

  predicate NamesCity(fold: string -> string, item: Item, key: string) {
    CityName(item) != "" && key == fold(CityName(item))
  }

  /** Item `i` is the last to name the region. */
  ghost predicate LastRegion(country: string, items: seq<Item>, code: string, i: int) {
    0 <= i < |items| && NamesRegion(country, items[i], code) && forall j | i < j < |items| :: !NamesRegion(country, items[j], code)
  }

  ghost predicate LastCity(fold: string -> string, items: seq<Item>, key: string, i: int) {
    0 <= i < |items| && NamesCity(fold, items[i], key) && forall j | i < j < |items| :: !NamesCity(fold, items[j], key)
  }

  /** The last of the items before, or the last item. */
  lemma LastRegionSplits(country: string, items: seq<Item>, code: string, i: int)
    requires items != []
    ensures var n := |items| - 1;
            LastRegion(country, items, code, i) <==>
              if i == n then NamesRegion(country, items[n], code)
              else LastRegion(country, items[..n], code, i) && !NamesRegion(country, items[n], code)
  {
    hide NamesRegion;
    var n := |items| - 1;
    assert forall j | 0 <= j < n :: items[..n][j] == items[j];
  }

  lemma LastCitySplits(fold: string -> string, items: seq<Item>, key: string, i: int)
    requires items != []
    ensures var n := |items| - 1;
            LastCity(fold, items, key, i) <==>
              if i == n then NamesCity(fold, items[n], key)
              else LastCity(fold, items[..n], key, i) && !NamesCity(fold, items[n], key)
  {
    hide NamesCity;
    var n := |items| - 1;
    assert forall j | 0 <= j < n :: items[..n][j] == items[j];
  }

  /** A region is wanted exactly when an item names it, under the name of the last one. */
  ghost predicate RegionFollows(country: string, items: seq<Item>, code: string) {
    var names := WantedRegions(country, items).names;
    && (code in names <==> exists i :: LastRegion(country, items, code, i))
    && (forall i | LastRegion(country, items, code, i) :: code in names && names[code] == RegionName(items[i]))
  }

  /** A city is wanted exactly when an item names it up to case, spelled as in the last one. */
  ghost predicate CityFollows(fold: string -> string, items: seq<Item>, key: string) {
    var names := WantedCities(fold, items).names;
    && (key in names <==> exists i :: LastCity(fold, items, key, i))
    && (forall i | LastCity(fold, items, key, i) :: key in names && names[key] == CityName(items[i]))
  }

  lemma {:induction false} RegionsFollow(country: string, items: seq<Item>, code: string)
    ensures RegionFollows(country, items, code)
  {
    if items != [] {
      var n := |items| - 1;
      RegionsFollow(country, items[..n], code);
      var before := WantedRegions(country, items[..n]).names;
      hide RegionCode, RegionName, SPAIN;
      forall i ensures LastRegion(country, items, code, i) <==>
                         if i == n then NamesRegion(country, items[n], code)
                         else LastRegion(country, items[..n], code, i) && !NamesRegion(country, items[n], code)
      {
        LastRegionSplits(country, items, code, i);
      }
      if NamesRegion(country, items[n], code) {
        assert LastRegion(country, items, code, n);
      } else if code in before {
        var i :| LastRegion(country, items[..n], code, i);
        assert LastRegion(country, items, code, i);
      }
    }
  }

  lemma {:induction false} CitiesFollow(fold: string -> string, items: seq<Item>, key: string)
    ensures CityFollows(fold, items, key)
  {
    if items != [] {
      var n := |items| - 1;
      CitiesFollow(fold, items[..n], key);
      var before := WantedCities(fold, items[..n]).names;
      hide CityName;
      forall i ensures LastCity(fold, items, key, i) <==>
                         if i == n then NamesCity(fold, items[n], key)
                         else LastCity(fold, items[..n], key, i) && !NamesCity(fold, items[n], key)
      {
        LastCitySplits(fold, items, key, i);
      }
      if NamesCity(fold, items[n], key) {
        assert LastCity(fold, items, key, n);
      } else if key in before {
        var i :| LastCity(fold, items[..n], key, i);
        assert LastCity(fold, items, key, i);
      }
    }
  }

  lemma {:induction false} RegionsAreOrdered(country: string, items: seq<Item>)
    ensures Ordered(WantedRegions(country, items))
    ensures country == "ES" ==> forall code :: code in WantedRegions(country, items).names ==> code in SPAIN
  {
    if items != [] {
      hide RegionCode, RegionName, SPAIN;
      RegionsAreOrdered(country, items[..|items| - 1]);
    }
  }

  lemma {:induction false} CitiesHaveTheirKey(fold: string -> string, items: seq<Item>)
    ensures Keyed(Cities, fold, WantedCities(fold, items))
  {
    if items != [] {
      hide CityName;
      CitiesHaveTheirKey(fold, items[..|items| - 1]);
    }
  }

  /** The wanted regions are exactly those an item names, for Spain only autonomous
      communities, each with the name its last item gives it. */
  lemma RegionsAreKeyed(fold: string -> string, country: string, items: seq<Item>)
    ensures Keyed(Regions, fold, WantedRegions(country, items))
    ensures forall code :: RegionFollows(country, items, code)
    ensures country == "ES" ==> forall code :: code in WantedRegions(country, items).names ==> code in SPAIN
  {
    hide SPAIN;
    RegionsAreOrdered(country, items);
    forall code ensures RegionFollows(country, items, code) {
      RegionsFollow(country, items, code);
    }
  }

  /** The wanted cities are exactly those an item names, up to case, each spelled as in its
      last item. */
  lemma CitiesAreKeyed(fold: string -> string, items: seq<Item>)
    ensures Keyed(Cities, fold, WantedCities(fold, items))
    ensures forall key :: CityFollows(fold, items, key)
  {
    CitiesHaveTheirKey(fold, items);
    forall key ensures CityFollows(fold, items, key) {
      CitiesFollow(fold, items, key);
    }
  }

  // ------------------------------------------------------------------ created rows

  ghost predicate IsCreated(kind: Kind, fold: string -> string, current: map<string, nat>, scope: Scope, w: Wanted, done: seq<string>, row: Row) {
    var k := Key(kind, fold, row);
    k in done && k in w.names && k !in current && row == NewRow(kind, scope, k, w.names[k])
  }

  predicate HasKey(kind: Kind, fold: string -> string, rows: seq<Row>, key: string) {
    exists j :: 0 <= j < |rows| && Key(kind, fold, rows[j]) == key
  }

  /** One new row for every wanted key without a row. */
  ghost predicate CreatedFor(kind: Kind, fold: string -> string, current: map<string, nat>, scope: Scope, w: Wanted, done: seq<string>, c: seq<Row>) {
    && (forall j | 0 <= j < |c| :: IsCreated(kind, fold, current, scope, w, done, c[j]))
    && (forall i, j | 0 <= i < j < |c| :: Key(kind, fold, c[i]) != Key(kind, fold, c[j]))
    && (forall k :: k in done && k !in current ==> HasKey(kind, fold, c, k))
  }

  lemma CreatedNext(kind: Kind, fold: string -> string, current: map<string, nat>, scope: Scope, w: Wanted, done: seq<string>, c: seq<Row>, key: string)
    requires CreatedFor(kind, fold, current, scope, w, done, c) && key !in done && key in w.names
    requires Key(kind, fold, NewRow(kind, scope, key, w.names[key])) == key
    ensures CreatedFor(kind, fold, current, scope, w, done + [key],
                       c + (if key in current then [] else [NewRow(kind, scope, key, w.names[key])]))
  {
    var d := c + (if key in current then [] else [NewRow(kind, scope, key, w.names[key])]);
    hide Key, NewRow;
    forall k | k in done + [key] && k !in current ensures HasKey(kind, fold, d, k) {
      if k == key {
        assert Key(kind, fold, d[|d| - 1]) == k;
      } else {
        assert HasKey(kind, fold, c, k);
        var j :| 0 <= j < |c| && Key(kind, fold, c[j]) == k;
        assert Key(kind, fold, d[j]) == k;
      }
    }
    forall j | 0 <= j < |d| ensures IsCreated(kind, fold, current, scope, w, done + [key], d[j]) {
      if j < |c| {
        assert IsCreated(kind, fold, current, scope, w, done, c[j]);
      }
    }
  }

  lemma {:induction false} CreatedRows(kind: Kind, fold: string -> string, current: map<string, nat>, scope: Scope, w: Wanted, done: seq<string>)
    requires Keyed(kind, fold, w) && done <= w.order
    requires forall k :: k in done ==> k in w.names
    ensures CreatedFor(kind, fold, current, scope, w, done, Created(kind, current, scope, w.names, done))
  {
    if done != [] {
      var n := |done| - 1;
      var before, key := done[..n], done[n];
      assert done == before + [key] && key in w.names;
      assert key !in before by {
        assert forall i | 0 <= i < n :: before[i] == w.order[i];
      }
      assert Key(kind, fold, NewRow(kind, scope, key, w.names[key])) == key;
      CreatedRows(kind, fold, current, scope, w, before);
      hide CreatedFor, Key, NewRow, Keyed;
      CreatedNext(kind, fold, current, scope, w, before, Created(kind, current, scope, w.names, before), key);
    }
  }

  // ------------------------------------------------------------------ the written table

  /** A row of the scope whose key is wanted is exactly as wanted. */
  ghost predicate AsWanted(kind: Kind, fold: string -> string, w: Wanted, row: Row) {
    var k := Key(kind, fold, row);
    k in w.names ==> row.name == w.names[k] && row.source == SOURCE && row.active
  }

  /** `b` is `a` or its rewriting. */
  ghost predicate Follows(kind: Kind, fold: string -> string, scope: Scope, w: Wanted, a: Row, b: Row) {
    var k := Key(kind, fold, a);
    b == if a.scope == scope && k in w.names then Fixed(a, w.names[k]) else a
  }

  lemma RewrittenRows(kind: Kind, fold: string -> string, scope: Scope, rows: seq<Row>, w: Wanted)
    requires Keyed(kind, fold, w) && UniqueKeys(kind, fold, scope, rows)
    ensures var r := RewriteAll(kind, fold, scope, rows, w, w.order);
            |r| == |rows| && forall i | 0 <= i < |rows| :: Follows(kind, fold, scope, w, rows[i], r[i])
  {
    var current := Current(kind, fold, scope, rows);
    forall i | 0 <= i < |rows| && rows[i].scope == scope ensures current[Key(kind, fold, rows[i])] == i {
      var j := current[Key(kind, fold, rows[i])];
      assert !(i < j) && !(j < i);
    }
  }

  /** The key of a row survives its rewriting. */
  lemma FollowsKeepsKey(kind: Kind, fold: string -> string, scope: Scope, w: Wanted, a: Row, b: Row)
    requires Keyed(kind, fold, w) && Follows(kind, fold, scope, w, a, b)
    ensures Key(kind, fold, b) == Key(kind, fold, a) && b.scope == a.scope && b.code == a.code
    ensures b.scope == scope ==> AsWanted(kind, fold, w, b)
  {
  }

  /** After create and update: old rows in place, wanted rows as wanted, every wanted key there,
      keys still unique. */
  ghost predicate Reconciled(kind: Kind, fold: string -> string, scope: Scope, w: Wanted, rows: seq<Row>, t: seq<Row>) {
    && |rows| <= |t|
    && (forall i | 0 <= i < |rows| :: Follows(kind, fold, scope, w, rows[i], t[i]))
    && (forall i | |rows| <= i < |t| :: t[i].scope == scope)
    && (forall i | 0 <= i < |t| && t[i].scope == scope :: AsWanted(kind, fold, w, t[i]))
    && UniqueKeys(kind, fold, scope, t)
    && (forall k :: k in w.names ==> HasScopeKey(kind, fold, scope, t, k))
    && (forall i | |rows| <= i < |t| :: Key(kind, fold, t[i]) in w.names)
  }

  predicate HasScopeKey(kind: Kind, fold: string -> string, scope: Scope, rows: seq<Row>, key: string) {
    exists j :: 0 <= j < |rows| && rows[j].scope == scope && Key(kind, fold, rows[j]) == key
  }

  /** Old rows are rewritten in place, new ones are as wanted under keys that had no row. */
  ghost predicate Shaped(kind: Kind, fold: string -> string, scope: Scope, w: Wanted, rows: seq<Row>, c: seq<Row>, t: seq<Row>) {
    && |t| == |rows| + |c|
    && (forall i | 0 <= i < |rows| ::
          Follows(kind, fold, scope, w, rows[i], t[i]) && Key(kind, fold, t[i]) == Key(kind, fold, rows[i]) && t[i].scope == rows[i].scope)
    && (forall i | |rows| <= i < |t| ::
          t[i] == c[i - |rows|] && t[i].scope == scope && Key(kind, fold, t[i]) in w.names
          && Key(kind, fold, t[i]) !in Current(kind, fold, scope, rows))
    && (forall i | 0 <= i < |t| && t[i].scope == scope :: AsWanted(kind, fold, w, t[i]))
  }

  ghost predicate OldRow(kind: Kind, fold: string -> string, scope: Scope, w: Wanted, a: Row, b: Row) {
    && Follows(kind, fold, scope, w, a, b) && Key(kind, fold, b) == Key(kind, fold, a) && b.scope == a.scope
    && (b.scope == scope ==> AsWanted(kind, fold, w, b))
  }

  ghost predicate AddedRow(kind: Kind, fold: string -> string, current: map<string, nat>, scope: Scope, w: Wanted, row: Row) {
    && row.scope == scope && Key(kind, fold, row) in w.names && Key(kind, fold, row) !in current && AsWanted(kind, fold, w, row)
  }

  lemma OldRows(kind: Kind, fold: string -> string, scope: Scope, rows: seq<Row>, w: Wanted)
    requires Keyed(kind, fold, w) && UniqueKeys(kind, fold, scope, rows)
    ensures var r := RewriteAll(kind, fold, scope, rows, w, w.order);
            |r| == |rows| && forall i | 0 <= i < |rows| :: OldRow(kind, fold, scope, w, rows[i], r[i])
  {
    RewrittenRows(kind, fold, scope, rows, w);
    var r := RewriteAll(kind, fold, scope, rows, w, w.order);
    hide RewriteAll, Follows, UniqueKeys, Keyed, AsWanted, Key;
    forall i | 0 <= i < |rows| ensures OldRow(kind, fold, scope, w, rows[i], r[i]) {
      FollowsKeepsKey(kind, fold, scope, w, rows[i], r[i]);
    }
  }

  lemma AddedRows(kind: Kind, fold: string -> string, current: map<string, nat>, scope: Scope, w: Wanted, c: seq<Row>)
    requires CreatedFor(kind, fold, current, scope, w, w.order, c)
    ensures forall j | 0 <= j < |c| :: AddedRow(kind, fold, current, scope, w, c[j])
  {
    forall j | 0 <= j < |c| ensures AddedRow(kind, fold, current, scope, w, c[j]) {
      assert IsCreated(kind, fold, current, scope, w, w.order, c[j]);
    }
  }

  lemma PartsAreShaped(kind: Kind, fold: string -> string, scope: Scope, rows: seq<Row>, w: Wanted, r: seq<Row>, c: seq<Row>)
    requires |r| == |rows| && forall i | 0 <= i < |rows| :: OldRow(kind, fold, scope, w, rows[i], r[i])
    requires forall j | 0 <= j < |c| :: AddedRow(kind, fold, Current(kind, fold, scope, rows), scope, w, c[j])
    ensures Shaped(kind, fold, scope, w, rows, c, r + c)
  {
    hide Follows, AsWanted, Key, Current;
    var t := r + c;
    forall i | 0 <= i < |t|
      ensures i < |rows| ==> t[i] == r[i] && OldRow(kind, fold, scope, w, rows[i], t[i])
      ensures i >= |rows| ==> t[i] == c[i - |rows|] && AddedRow(kind, fold, Current(kind, fold, scope, rows), scope, w, t[i])
    {}
  }

  lemma WrittenIsShaped(kind: Kind, fold: string -> string, scope: Scope, rows: seq<Row>, w: Wanted)
    requires Keyed(kind, fold, w) && UniqueKeys(kind, fold, scope, rows)
    ensures Shaped(kind, fold, scope, w, rows, Created(kind, Current(kind, fold, scope, rows), scope, w.names, w.order),
                   Written(kind, fold, scope, rows, w))
  {
    hide RewriteAll, Created, Current, UniqueKeys, CreatedFor, Shaped, OldRow, AddedRow;
    var current := Current(kind, fold, scope, rows);
    var r, c := RewriteAll(kind, fold, scope, rows, w, w.order), Created(kind, current, scope, w.names, w.order);
    assert Written(kind, fold, scope, rows, w) == r + c;
    OldRows(kind, fold, scope, rows, w);
    CreatedRows(kind, fold, current, scope, w, w.order);
    AddedRows(kind, fold, current, scope, w, c);
    PartsAreShaped(kind, fold, scope, rows, w, r, c);
  }

  lemma ShapedIsUnique(kind: Kind, fold: string -> string, scope: Scope, w: Wanted, rows: seq<Row>, c: seq<Row>, t: seq<Row>)
    requires Shaped(kind, fold, scope, w, rows, c, t) && UniqueKeys(kind, fold, scope, rows)
    requires forall i, j | 0 <= i < j < |c| :: Key(kind, fold, c[i]) != Key(kind, fold, c[j])
    ensures UniqueKeys(kind, fold, scope, t)
  {
    hide Follows, AsWanted, Key;
  }

  lemma WrittenIsReconciled(kind: Kind, fold: string -> string, scope: Scope, rows: seq<Row>, w: Wanted)
    requires Keyed(kind, fold, w) && UniqueKeys(kind, fold, scope, rows)
    ensures Reconciled(kind, fold, scope, w, rows, Written(kind, fold, scope, rows, w))
  {
    var current := Current(kind, fold, scope, rows);
    var c, t := Created(kind, current, scope, w.names, w.order), Written(kind, fold, scope, rows, w);
    WrittenIsShaped(kind, fold, scope, rows, w);
    CreatedRows(kind, fold, current, scope, w, w.order);
    ShapedIsUnique(kind, fold, scope, w, rows, c, t);
    assert forall k :: k in w.names ==> k in w.order;
    hide Written, Follows, AsWanted, Fixed, UniqueKeys, Key, Keyed, Created;
    forall k | k in w.names ensures HasScopeKey(kind, fold, scope, t, k) {
      assert k in w.order;
      if k in current {
        assert t[current[k]].scope == scope && Key(kind, fold, t[current[k]]) == k;
      } else {
        assert HasKey(kind, fold, c, k);
        var j :| 0 <= j < |c| && Key(kind, fold, c[j]) == k;
        assert t[|rows| + j] == c[j];
      }
    }
  }

  // ------------------------------------------------------------------ main results

  /** A row of the scope is active exactly when its key is wanted, and then it shows the name. */
  ghost predicate Replaced(kind: Kind, fold: string -> string, scope: Scope, w: Wanted, row: Row) {
    row.scope == scope ==>
      && (row.active <==> Key(kind, fold, row) in w.names)
      && (row.active ==> row.name == w.names[Key(kind, fold, row)] && row.source == SOURCE)
  }

  /** Staleness means that the key is not wanted, although cities are compared by name. */
  lemma StaleIsUnwanted(kind: Kind, fold: string -> string, scope: Scope, w: Wanted, row: Row)
    requires Keyed(kind, fold, w) && row.scope == scope && AsWanted(kind, fold, w, row)
    ensures Stale(kind, scope, w, row) <==> row.active && Key(kind, fold, row) !in w.names
  {
    if kind == Cities && row.name in w.names.Values {
      var k :| k in w.names && w.names[k] == row.name;
    }
  }

  /** After the pass the active rows of the country are exactly the wanted ones with the wanted
      names; no row is gone or moved; rows of other countries and accounts are the same; and
      keys stay unique. */
  lemma SyncReplaces(kind: Kind, fold: string -> string, scope: Scope, rows: seq<Row>, w: Wanted)
    requires Keyed(kind, fold, w) && UniqueKeys(kind, fold, scope, rows)
    ensures var r := Sync(kind, fold, scope, rows, w).0;
            && |rows| <= |r| && UniqueKeys(kind, fold, scope, r)
            && (forall i | 0 <= i < |rows| ::
                  && r[i].scope == rows[i].scope && r[i].code == rows[i].code && Key(kind, fold, r[i]) == Key(kind, fold, rows[i])
                  && (rows[i].scope != scope ==> r[i] == rows[i]))
            && (forall i | 0 <= i < |r| :: Replaced(kind, fold, scope, w, r[i]))
            && (forall i | |rows| <= i < |r| :: r[i].scope == scope && r[i].active)
            && (forall k :: k in w.names ==> HasScopeKey(kind, fold, scope, r, k))
  {
    var t := Written(kind, fold, scope, rows, w);
    var r := Sync(kind, fold, scope, rows, w).0;
    WrittenIsReconciled(kind, fold, scope, rows, w);
    hide Written, Keyed;
    forall i | 0 <= i < |t|
      ensures r[i].scope == t[i].scope && r[i].code == t[i].code && Key(kind, fold, r[i]) == Key(kind, fold, t[i])
      ensures t[i].scope != scope ==> r[i] == t[i]
      ensures Replaced(kind, fold, scope, w, r[i])
      ensures i >= |rows| ==> r[i].active
    {
      if t[i].scope == scope {
        StaleIsUnwanted(kind, fold, scope, w, t[i]);
      }
    }
    forall i | 0 <= i < |rows| ensures t[i].scope == rows[i].scope && t[i].code == rows[i].code && Key(kind, fold, t[i]) == Key(kind, fold, rows[i]) {
      FollowsKeepsKey(kind, fold, scope, w, rows[i], t[i]);
    }
    forall k | k in w.names ensures HasScopeKey(kind, fold, scope, r, k) {
      assert HasScopeKey(kind, fold, scope, t, k);
      var j :| 0 <= j < |t| && t[j].scope == scope && Key(kind, fold, t[j]) == k;
      assert r[j].scope == scope && Key(kind, fold, r[j]) == k;
    }
    hide Sync, Reconciled, Replaced, Key;
    assert UniqueKeys(kind, fold, scope, t);
  }

  lemma {:induction false} NothingDiffers(current: map<string, nat>, rows: seq<Row>, names: map<string, string>, done: seq<string>)
    requires (forall k :: k in done ==> k in names) && forall k :: k in current ==> current[k] < |rows|
    requires forall k :: k in done && k in current ==> rows[current[k]] == Fixed(rows[current[k]], names[k])
    ensures Differing(current, rows, names, done) == 0
  {
    if done != [] {
      NothingDiffers(current, rows, names, done[..|done| - 1]);
    }
  }

  lemma {:induction false} NothingCreated(kind: Kind, current: map<string, nat>, scope: Scope, names: map<string, string>, done: seq<string>)
    requires (forall k :: k in done ==> k in names) && forall k :: k in done ==> k in current
    ensures Created(kind, current, scope, names, done) == []
  {
    if done != [] {
      NothingCreated(kind, current, scope, names, done[..|done| - 1]);
    }
  }

  lemma {:induction false} NothingStale(kind: Kind, scope: Scope, w: Wanted, rows: seq<Row>)
    requires forall i | 0 <= i < |rows| :: !Stale(kind, scope, w, rows[i])
    ensures CountStale(kind, scope, w, rows) == 0 && SwitchOff(kind, scope, w, rows) == rows
  {
    if rows != [] {
      NothingStale(kind, scope, w, rows[..|rows| - 1]);
    }
    assert SwitchOff(kind, scope, w, rows) == rows;
  }

  /** On a table that already shows what is wanted, the pass does nothing. */
  lemma SyncOfReplacedIsIdle(kind: Kind, fold: string -> string, scope: Scope, rows: seq<Row>, w: Wanted)
    requires Keyed(kind, fold, w) && UniqueKeys(kind, fold, scope, rows)
    requires forall i | 0 <= i < |rows| :: Replaced(kind, fold, scope, w, rows[i])
    requires forall k :: k in w.names ==> HasScopeKey(kind, fold, scope, rows, k)
    ensures Sync(kind, fold, scope, rows, w) == (rows, 0, 0)
  {
    var current := Current(kind, fold, scope, rows);
    forall k | k in w.names ensures k in current && rows[current[k]] == Fixed(rows[current[k]], w.names[k]) {
      assert HasScopeKey(kind, fold, scope, rows, k);
      assert Replaced(kind, fold, scope, w, rows[current[k]]);
    }
    NothingCreated(kind, current, scope, w.names, w.order);
    NothingDiffers(current, rows, w.names, w.order);
    RewrittenRows(kind, fold, scope, rows, w);
    assert Written(kind, fold, scope, rows, w) == rows by {
      var t := RewriteAll(kind, fold, scope, rows, w, w.order);
      forall i | 0 <= i < |rows| ensures t[i] == rows[i] {
        assert Replaced(kind, fold, scope, w, rows[i]) && Follows(kind, fold, scope, w, rows[i], t[i]);
      }
    }
    forall i | 0 <= i < |rows| ensures !Stale(kind, scope, w, rows[i]) {
      assert Replaced(kind, fold, scope, w, rows[i]);
      if rows[i].scope == scope {
        StaleIsUnwanted(kind, fold, scope, w, rows[i]);
      }
    }
    NothingStale(kind, scope, w, rows);
  }

  /** Repeating the pass changes nothing and counts nothing. */
  lemma SyncIsIdempotent(kind: Kind, fold: string -> string, scope: Scope, rows: seq<Row>, w: Wanted)
    requires Keyed(kind, fold, w) && UniqueKeys(kind, fold, scope, rows)
    ensures var r := Sync(kind, fold, scope, rows, w).0; Sync(kind, fold, scope, r, w) == (r, 0, 0)
  {
    SyncReplaces(kind, fold, scope, rows, w);
    hide Sync;
    SyncOfReplacedIsIdle(kind, fold, scope, Sync(kind, fold, scope, rows, w).0, w);
  }
}
