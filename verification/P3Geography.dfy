/** Reconciliation of the P3 geography of one country (control/p3_geo_catalog.py).

    Regions and cities go through the same pass: rows of the country's scope are matched to
    the wanted names by key, missing ones are created, differing ones rewritten, and stale
    ones switched off.  A region's key is its code, a city's its case-folded name. */
module P3Geography {
  import Routing = P3Routing

  const ACCOUNT := "p3-global-v1"
  const SOURCE := "dynamic-geo-v1"

  const SPAIN: set<string> := {
    "AN", "AR", "AS", "CB", "CE", "CL", "CM", "CN", "CT", "EX", "GA", "IB", "MC", "MD", "ML", "NC", "PV", "RI", "VC" }

  datatype Kind = Regions | Cities

  /** `account` and `region` are empty in the region table. */
  datatype Scope = Scope(provider: string, account: string, country: string, region: string)

  /** `code` is empty in the city table. */
  datatype Row = Row(scope: Scope, code: string, name: string, source: string, active: bool)

  /** One upstream item with its alternative fields. */
  datatype Item = Item(code: string, value: string, name: string, display: string)

  /** A dictionary from key to name with its insertion order. */
  datatype Wanted = Wanted(order: seq<string>, names: map<string, string>)

  const NOTHING := Wanted([], map[])

  // ------------------------------------------------------------------ what is wanted

  function Or(a: string, b: string): string {
    if a != "" then a else b
  }

  function Clip(s: string, n: nat): string {
    if |s| <= n then s else s[..n]
  }

  function Put(w: Wanted, key: string, name: string): Wanted {
    Wanted(if key in w.names then w.order else w.order + [key], w.names[key := name])
  }

  function RegionCode(item: Item): string {
    Clip(Routing.Strip(Or(item.code, item.value)), 120)
  }

  function RegionName(item: Item): string {
    Clip(Routing.Strip(Or(item.name, item.display)), 160)
  }

  function CityName(item: Item): string {
    Clip(Routing.Strip(Or(Or(item.name, item.value), item.display)), 120)
  }

  predicate Allowed(country: string, code: string) {
    country == "ES" ==> code in SPAIN
  }

  function WantedRegions(country: string, items: seq<Item>): Wanted {
    if items == [] then NOTHING
    else
      var w, item := WantedRegions(country, items[..|items| - 1]), items[|items| - 1];
      if RegionCode(item) != "" && RegionName(item) != "" && Allowed(country, RegionCode(item))
      then Put(w, RegionCode(item), RegionName(item)) else w
  }

  function WantedCities(fold: string -> string, items: seq<Item>): Wanted {
    if items == [] then NOTHING
    else
      var w, item := WantedCities(fold, items[..|items| - 1]), items[|items| - 1];
      if CityName(item) != "" then Put(w, fold(CityName(item)), CityName(item)) else w
  }

  /** The order lists every key once. */
  ghost predicate Ordered(w: Wanted) {
    && (forall i, j :: 0 <= i < j < |w.order| ==> w.order[i] != w.order[j])
    && (forall k :: k in w.order <==> k in w.names)
  }

  // ------------------------------------------------------------------ the pass over a table

  function Key(kind: Kind, fold: string -> string, row: Row): string {
    if kind == Regions then row.code else fold(row.name)
  }

  function ScopeOf(kind: Kind, country: string): Scope {
    if kind == Regions then Scope("P3", "", country, "") else Scope("P3", ACCOUNT, country, "")
  }

  /** Rows of the scope by key; a later row of the same key takes its place. */
  function Current(kind: Kind, fold: string -> string, scope: Scope, rows: seq<Row>): (current: map<string, nat>)
    ensures forall k :: k in current ==> current[k] < |rows| && rows[current[k]].scope == scope && Key(kind, fold, rows[current[k]]) == k
    ensures forall i :: 0 <= i < |rows| && rows[i].scope == scope ==> Key(kind, fold, rows[i]) in current
  {
    if rows == [] then map[]
    else
      var before, n := Current(kind, fold, scope, rows[..|rows| - 1]), |rows| - 1;
      if rows[n].scope == scope then before[Key(kind, fold, rows[n]) := n] else before
  }

  function Fixed(row: Row, name: string): Row {
    row.(name := name, source := SOURCE, active := true)
  }

  function NewRow(kind: Kind, scope: Scope, key: string, name: string): Row {
    Row(scope, if kind == Regions then key else "", name, SOURCE, true)
  }

  /** Row `i` once the keys `done` are dealt with. */
  function Rewritten(current: map<string, nat>, rows: seq<Row>, names: map<string, string>, done: seq<string>, i: nat, key: string): Row
    requires i < |rows| && forall k :: k in done ==> k in names
  {
    if key in done && key in current && current[key] == i then Fixed(rows[i], names[key]) else rows[i]
  }

  function RewriteAll(kind: Kind, fold: string -> string, scope: Scope, rows: seq<Row>, w: Wanted, done: seq<string>): seq<Row>
    requires forall k :: k in done ==> k in w.names
  {
    var current := Current(kind, fold, scope, rows);
    seq(|rows|, i requires 0 <= i < |rows| => Rewritten(current, rows, w.names, done, i, Key(kind, fold, rows[i])))
  }

  function Created(kind: Kind, current: map<string, nat>, scope: Scope, names: map<string, string>, done: seq<string>): seq<Row>
    requires forall k :: k in done ==> k in names
  {
    if done == [] then []
    else
      var k := done[|done| - 1];
      Created(kind, current, scope, names, done[..|done| - 1]) + (if k in current then [] else [NewRow(kind, scope, k, names[k])])
  }

  /** How many existing rows differ from what is wanted. */
  function Differing(current: map<string, nat>, rows: seq<Row>, names: map<string, string>, done: seq<string>): nat
    requires (forall k :: k in done ==> k in names) && forall k :: k in current ==> current[k] < |rows|
  {
    if done == [] then 0
    else
      var k := done[|done| - 1];
      Differing(current, rows, names, done[..|done| - 1]) +
      (if k in current && rows[current[k]] != Fixed(rows[current[k]], names[k]) then 1 else 0)
  }

  /** Regions are kept by code, cities by name. */
  predicate Stale(kind: Kind, scope: Scope, w: Wanted, row: Row) {
    row.scope == scope && row.active && (if kind == Regions then row.code !in w.names else row.name !in w.names.Values)
  }

  function SwitchOff(kind: Kind, scope: Scope, w: Wanted, rows: seq<Row>): seq<Row> {
    seq(|rows|, i requires 0 <= i < |rows| => if Stale(kind, scope, w, rows[i]) then rows[i].(active := false) else rows[i])
  }

  function CountStale(kind: Kind, scope: Scope, w: Wanted, rows: seq<Row>): nat {
    if rows == [] then 0
    else CountStale(kind, scope, w, rows[..|rows| - 1]) + (if Stale(kind, scope, w, rows[|rows| - 1]) then 1 else 0)
  }

  /** The table after create and update. */
  function Written(kind: Kind, fold: string -> string, scope: Scope, rows: seq<Row>, w: Wanted): seq<Row>
    requires Ordered(w)
  {
    RewriteAll(kind, fold, scope, rows, w, w.order) + Created(kind, Current(kind, fold, scope, rows), scope, w.names, w.order)
  }

  /** The whole pass: the new table, the number of rows written and of rows switched off. */
  function Sync(kind: Kind, fold: string -> string, scope: Scope, rows: seq<Row>, w: Wanted): (seq<Row>, nat, nat)
    requires Ordered(w)
  {
    var current := Current(kind, fold, scope, rows);
    var written := Written(kind, fold, scope, rows, w);
    (SwitchOff(kind, scope, w, written),
     |Created(kind, current, scope, w.names, w.order)| + Differing(current, rows, w.names, w.order),
     CountStale(kind, scope, w, written))
  }
}
