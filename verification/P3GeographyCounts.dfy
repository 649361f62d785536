/** How an upstream item is read, and what the four counts of the reconciliation stand for, from
    the tables before it. */
module P3GeographyCounts {
  import opened P3Geography
  import Routing = P3Routing
  import opened P3GeographyTheorems
  import opened Trimming

  // ------------------------------------------------------------------ items

  /** `value` is the text without white space around it, cut off after `n` characters. */
  ghost predicate IsRead(text: string, n: nat, value: string) {
    exists t :: IsTrimmed(text, t) && value == if |t| <= n then t else t[..n]
  }

  lemma ReadExactly(text: string, n: nat, value: string)
    ensures IsRead(text, n, value) <==> value == Clip(Routing.Strip(text), n)
  {
    StripTrims(text);
    var u := Routing.Strip(text);
    forall t | IsTrimmed(text, t) ensures t == u {
      OneTrimming(text, t, u);
    }
    hide Routing.Strip, IsTrimmed;
  }

  /** The code of a region is its `code`, or else its `value`; its name is its `name`, or else its
      display name; a city's name is its `name`, or else its `value`, or else its display name. */
  lemma ItemsAreRead(item: Item, value: string)
    ensures value == RegionCode(item) <==> IsRead(if item.code != "" then item.code else item.value, 120, value)
    ensures value == RegionName(item) <==> IsRead(if item.name != "" then item.name else item.display, 160, value)
    ensures value == CityName(item) <==>
              IsRead(if item.name != "" then item.name else if item.value != "" then item.value else item.display, 120, value)
  {
    hide IsRead, Clip;
    ReadExactly(if item.code != "" then item.code else item.value, 120, value);
    ReadExactly(if item.name != "" then item.name else item.display, 160, value);
    ReadExactly(if item.name != "" then item.name else if item.value != "" then item.value else item.display, 120, value);
  }

  // ------------------------------------------------------------------ counts

  /** Wanted keys without a row. */
  function MissingKeys(kind: Kind, fold: string -> string, scope: Scope, rows: seq<Row>, w: Wanted): set<string> {
    set k | k in w.names && !HasScopeKey(kind, fold, scope, rows, k)
  }

  /** Rows of the scope that do not show what is wanted under their key. */
  function ChangingRows(kind: Kind, fold: string -> string, scope: Scope, rows: seq<Row>, w: Wanted): set<nat> {
    set i: nat | i < |rows| && rows[i].scope == scope && Key(kind, fold, rows[i]) in w.names &&
                 !(rows[i].name == w.names[Key(kind, fold, rows[i])] && rows[i].source == "dynamic-geo-v1" && rows[i].active)
  }

  /** Active rows of the scope whose key is not wanted. */
  function LeavingRows(kind: Kind, fold: string -> string, scope: Scope, rows: seq<Row>, w: Wanted): set<nat> {
    set i: nat | i < |rows| && rows[i].scope == scope && rows[i].active && Key(kind, fold, rows[i]) !in w.names
  }

  lemma CreatedMore(kind: Kind, current: map<string, nat>, scope: Scope, names: map<string, string>,
                    before: seq<string>, key: string)
    requires forall k :: k in before + [key] ==> k in names
    ensures |Created(kind, current, scope, names, before + [key])| ==
              |Created(kind, current, scope, names, before)| + (if key in current then 0 else 1)
  {
    assert (before + [key])[..|before|] == before;
  }

  lemma {:induction false} CreatedCount(kind: Kind, current: map<string, nat>, scope: Scope, names: map<string,
                                        string>, done: seq<string>)
    requires (forall k :: k in done ==> k in names) && forall i, j :: 0 <= i < j < |done| ==> done[i] != done[j]
    ensures |Created(kind, current, scope, names, done)| == |(set k | k in done && k !in current.Keys)|
    decreases |done|
  {
    if done == [] {
      assert (set k | k in done && k !in current.Keys) == {};
    } else {
      var before, key := done[..|done| - 1], done[|done| - 1];
      CreatedCount(kind, current, scope, names, before);
      assert done == before + [key] && key !in before;
      CreatedMore(kind, current, scope, names, before, key);
      hide Created;
      OneMore(before, done, current.Keys, key);
    }
  }

  lemma OneMore(before: seq<string>, done: seq<string>, taken: set<string>, key: string)
    requires done == before + [key] && key !in before
    ensures |(set k | k in done && k !in taken)| == |(set k | k in before && k !in taken)| + (if key in taken then 0 else 1)
  {
    assert forall k :: k in done <==> k in before || k == key;
    assert (set k | k in done && k !in taken) == (set k | k in before && k !in taken) + (if key in taken then {} else {key});
  }

  function Differs(current: map<string, nat>, rows: seq<Row>, names: map<string, string>, done: seq<string>): set<nat>
    requires (forall k :: k in done ==> k in names) && forall k :: k in current ==> current[k] < |rows|
  {
    set k | k in done && k in current && rows[current[k]] != Fixed(rows[current[k]], names[k]) :: current[k]
  }

  lemma {:induction false} DifferingCount(current: map<string, nat>, rows: seq<Row>, names: map<string, string>,
          done: seq<string>)
    requires (forall k :: k in done ==> k in names) && forall k :: k in current ==> current[k] < |rows|
    requires forall i, j :: 0 <= i < j < |done| ==> done[i] != done[j]
    requires forall k, l :: k in current && l in current && k != l ==> current[k] != current[l]
    ensures Differing(current, rows, names, done) == |Differs(current, rows, names, done)|
    decreases |done|
  {
    if done == [] {
      assert Differs(current, rows, names, done) == {};
    } else {
      var before, key := done[..|done| - 1], done[|done| - 1];
      DifferingCount(current, rows, names, before);
      assert done == before + [key] && key !in before;
      DifferingMore(current, rows, names, before, done, key);
    }
  }

  lemma DifferingMore(current: map<string, nat>, rows: seq<Row>, names: map<string, string>, before: seq<string>,
                      done: seq<string>, key: string)
    requires done == before + [key] && key !in before && (forall k :: k in done ==> k in names) && forall k :: k in current ==> current[k] < |rows|
    requires forall k, l :: k in current && l in current && k != l ==> current[k] != current[l]
    ensures |Differs(current, rows, names, done)| ==
              |Differs(current, rows, names, before)| +
              (if key in current && rows[current[key]] != Fixed(rows[current[key]], names[key]) then 1 else 0)
  {
    hide Fixed;
    assert forall k :: k in done <==> k in before || k == key;
    var all, less := Differs(current, rows, names, done), Differs(current, rows, names, before);
    if key in current && rows[current[key]] != Fixed(rows[current[key]], names[key]) {
      forall k | k in before && k in current ensures current[k] != current[key] {
        assert k != key;
      }
      assert all == less + {current[key]};
    } else {
      assert all == less;
    }
  }

  function StaleRows(kind: Kind, scope: Scope, w: Wanted, rows: seq<Row>): set<nat> {
    set i: nat | i < |rows| && Stale(kind, scope, w, rows[i])
  }

  lemma {:induction false} StaleCount(kind: Kind, scope: Scope, w: Wanted, rows: seq<Row>)
    ensures CountStale(kind, scope, w, rows) == |StaleRows(kind, scope, w, rows)|
    decreases |rows|
  {
    hide Stale;
    if rows == [] {
      assert StaleRows(kind, scope, w, rows) == {};
    } else {
      var n := |rows| - 1;
      StaleCount(kind, scope, w, rows[..n]);
      assert StaleRows(kind, scope, w, rows) == StaleRows(kind, scope, w, rows[..n]) + (if Stale(kind, scope, w, rows[n]) then {n} else {});
    }
  }

  /** The rows that the matching finds are those with the key. */
  lemma MatchedRows(kind: Kind, fold: string -> string, scope: Scope, rows: seq<Row>, w: Wanted)
    requires Ordered(w) && UniqueKeys(kind, fold, scope, rows)
    ensures var current := Current(kind, fold, scope, rows);
            && (forall k, l :: k in current && l in current && k != l ==> current[k] != current[l])
            && (set k | k in w.order && k !in current.Keys) == MissingKeys(kind, fold, scope, rows, w)
            && Differs(current, rows, w.names, w.order) == ChangingRows(kind, fold, scope, rows, w)
  {
    var current := Current(kind, fold, scope, rows);
    forall i: nat | i < |rows| && rows[i].scope == scope ensures current[Key(kind, fold, rows[i])] == i {
      var j := current[Key(kind, fold, rows[i])];
      assert !(i < j) && !(j < i);
    }
    hide Key, Current;
    forall i: nat ensures i in Differs(current, rows, w.names, w.order) <==> i in ChangingRows(kind, fold, scope, rows, w) {
      if i in ChangingRows(kind, fold, scope, rows, w) {
        var k := Key(kind, fold, rows[i]);
        assert k in w.order && current[k] == i;
      }
    }
    forall k ensures k in current <==> HasScopeKey(kind, fold, scope, rows, k) {
      if k in current {
        assert rows[current[k]].scope == scope && Key(kind, fold, rows[current[k]]) == k;
      }
    }
  }

  /** The stale rows after the writing are those that were to leave before it. */
  lemma StaleAreLeaving(kind: Kind, fold: string -> string, scope: Scope, rows: seq<Row>, w: Wanted)
    requires Keyed(kind, fold, w) && UniqueKeys(kind, fold, scope, rows)
    ensures StaleRows(kind, scope, w, Written(kind, fold, scope, rows, w)) == LeavingRows(kind, fold, scope, rows, w)
  {
    var t := Written(kind, fold, scope, rows, w);
    WrittenIsReconciled(kind, fold, scope, rows, w);
    hide Written, UniqueKeys;
    forall i: nat | i < |t| ensures i in StaleRows(kind, scope, w, t) <==> i in LeavingRows(kind, fold, scope, rows, w) {
      if t[i].scope == scope {
        StaleIsUnwanted(kind, fold, scope, w, t[i]);
      }
      if i < |rows| {
        FollowsKeepsKey(kind, fold, scope, w, rows[i], t[i]);
      }
    }
  }

  /** The pass creates one row for each wanted key without one; it counts these and the existing
      rows that do not show what is wanted; and it counts the active rows that are not wanted. */
  lemma CountsExactly(kind: Kind, fold: string -> string, scope: Scope, rows: seq<Row>, w: Wanted)
    requires Keyed(kind, fold, w) && UniqueKeys(kind, fold, scope, rows)
    ensures var (r, written, stale) := Sync(kind, fold, scope, rows, w);
            && |r| == |rows| + |MissingKeys(kind, fold, scope, rows, w)|
            && written == |MissingKeys(kind, fold, scope, rows, w)| + |ChangingRows(kind, fold, scope, rows, w)|
            && stale == |LeavingRows(kind, fold, scope, rows, w)|
  {
    var current := Current(kind, fold, scope, rows);
    assert Ordered(w) && |RewriteAll(kind, fold, scope, rows, w, w.order)| == |rows|;
    hide Current, Key, RewriteAll, Created, Differing, MissingKeys, ChangingRows, LeavingRows, Stale, Keyed, UniqueKeys;
    MatchedRows(kind, fold, scope, rows, w);
    CreatedCount(kind, current, scope, w.names, w.order);
    DifferingCount(current, rows, w.names, w.order);
    StaleCount(kind, scope, w, Written(kind, fold, scope, rows, w));
    StaleAreLeaving(kind, fold, scope, rows, w);
  }
}
