/** The release save and the update selectors on mutable tables (control/models.py and
    control/release_updates.py). */
module ReleaseDesk {
  import opened Wrappers
  import opened Releases
  import Routing = P3Routing

  // ------------------------------------------------------------------ the candidates of a selector

  ghost predicate Ordered(s: State, pks: seq<nat>) {
    && (forall i :: 0 <= i < |pks| ==> Present(s, pks[i]))
    && (forall i, j :: 0 <= i < j < |pks| ==> Ahead(s, pks[i], pks[j]))
  }

  function InsertInOrder(s: State, pks: seq<nat>, pk: nat): (r: seq<nat>)
    requires Ordered(s, pks) && Present(s, pk) && pk !in pks
    ensures Ordered(s, r) && forall x :: x in r <==> x in pks || x == pk
  {
    if pks == [] then [pk]
    else if Ahead(s, pk, pks[0]) then [pk] + pks
    else
      assert forall i :: 0 < i < |pks| ==> pks[1..][i - 1] == pks[i];
      var rest := InsertInOrder(s, pks[1..], pk);
      assert forall x :: x in pks <==> x == pks[0] || x in pks[1..];
      assert forall i :: 0 <= i < |rest| ==> Ahead(s, pks[0], rest[i]) by {
        assert forall i :: 0 <= i < |rest| ==> rest[i] in pks[1..] || rest[i] == pk;
      }
      [pks[0]] + rest
  }

  /** The query's answer over the first `n` rows. */
  function Candidates(s: State, client: Client, floor: Option<int>, n: nat): (pks: seq<nat>)
    requires n <= |s.rows|
    ensures Ordered(s, pks) && forall pk: nat :: pk in pks <==> pk < n && Listed(s, client, floor, pk)
  {
    if n == 0 then []
    else
      var before := Candidates(s, client, floor, n - 1);
      if Listed(s, client, floor, n - 1) then InsertInOrder(s, before, n - 1) else before
  }

  // ------------------------------------------------------------------ the mutable tables

  class ReleaseTables {
    var rows: seq<Option<Release>>
    var storage: map<string, File>

    constructor ()
      ensures View() == State([], map[])
    {
      rows, storage := [], map[];
    }

    function View(): State
      reads this
    {
      State(rows, storage)
    }

    /** The derived fields of a row about to be saved. */
    method Measure(kind: Kind, rules: Rules, existing: Option<Release>, item: Release, upload: Option<File>) returns (r: Option<Release>)
      ensures r == Derived(kind, rules, View(), existing, item, upload)
    {
      var row := item;
      if item.artifact != "" && (existing.None? || upload.Some? || item.artifact != existing.value.artifact) {
        var file := SourceFile(View(), item, upload);
        if file.None? {
          return None;
        }
        row := row.(filename := rules.base(item.artifact));
        row := row.(sha256 := file.value.sha256, size := file.value.size);
        if row.size > rules.maxBytes {
          return None;
        }
        if kind == Application && !file.value.executable {
          return None;
        }
      } else if existing.Some? {
        row := row.(filename := existing.value.filename);
        row := row.(sha256 := existing.value.sha256, size := existing.value.size);
      }
      r := Some(row);
    }

    method SaveRelease(kind: Kind, rules: Rules, pk: Option<nat>, item: Release, upload: Option<File>) returns (ok: bool)
      requires pk.Some? ==> Present(View(), pk.value)
      modifies this
      ensures var s := Save(kind, rules, old(View()), pk, item, upload);
              ok == s.Some? && View() == if ok then s.value else old(View())
    {
      hide CleanTargets, HigherBuildOut, BuildTaken, Routing.Strip, Intact, Signed, FieldsValid, Identity, Derived;
      var existing := Find(View(), pk);
      if !FieldsValid(kind, rules, item) {
        return false;
      }
      if kind == Application && existing.None? && item.status != Draft {
        return false;
      }
      if kind == Application && existing.Some? && existing.value.status == Draft && item.status == Revoked {
        return false;
      }
      var offices, devices := CleanTargets(item.offices), CleanTargets(item.devices);
      if offices.None? || devices.None? {
        return false;
      }
      var row := item.(offices := offices.value, devices := devices.value, signature := Routing.Strip(item.signature));
      var measured := Measure(kind, rules, existing, row, upload);
      if measured.None? {
        return false;
      }
      row := measured.value;
      if existing.Some? && existing.value.status != Draft {
        if Identity(kind, row) != Identity(kind, existing.value) {
          return false;
        }
        if kind == Application && existing.value.status == Revoked &&
           (row.mode != existing.value.mode || row.offices != existing.value.offices || row.devices != existing.value.devices) {
          return false;
        }
        if row.status != Revoked && !(existing.value.status == Published && row.status == Published) {
          return false;
        }
      }
      var files := Stored(View(), item, upload);
      if row.status == Published && (existing.None? || existing.value.status != Published) {
        if existing.None? || HigherBuildOut(View(), row) || !Intact(files, row) || !Signed(kind, rules, row) {
          return false;
        }
      }
      if BuildTaken(View(), row, pk) {
        return false;
      }
      if pk.Some? {
        rows := rows[pk.value := Some(row)];
      } else {
        rows := rows + [Some(row)];
      }
      storage := files;
      ok := true;
    }

    /** The first eligible candidate, newest build first. */
    method SelectDesktopUpdate(rules: Rules, client: Client, appBuild: int) returns (selected: Option<nat>)
      ensures match selected
              case None => forall pk: nat :: !Eligible(Application, rules, View(), client, Floor(appBuild), pk)
              case Some(pk) =>
                && Eligible(Application, rules, View(), client, Floor(appBuild), pk)
                && forall q: nat :: q != pk && Eligible(Application, rules, View(), client, Floor(appBuild), q) ==> Ahead(View(), pk, q)
    {
      var floor := Floor(appBuild);
      var candidates := Candidates(View(), client, floor, |rows|);
      for i := 0 to |candidates|
        invariant forall k :: 0 <= k < i ==> !Eligible(Application, rules, View(), client, floor, candidates[k])
      {
        var release := rows[candidates[i]].value;
        if Applies(rules, release, client) && release.artifact in storage && Signed(Application, rules, release) {
          return Some(candidates[i]);
        }
      }
      selected := None;
    }

    /** Per component and slot, the first eligible candidate. */
    method SelectComponentUpdates(rules: Rules, client: Client) returns (selected: map<Slot, nat>)
      ensures forall key :: key in selected ==>
                && Eligible(Component, rules, View(), client, None, selected[key]) && SlotOf(rows[selected[key]].value) == key
                && forall q: nat :: q != selected[key] && Eligible(Component, rules, View(), client, None, q) && SlotOf(rows[q].value) == key ==>
                     Ahead(View(), selected[key], q)
      ensures forall q: nat :: Eligible(Component, rules, View(), client, None, q) ==> SlotOf(rows[q].value) in selected
    {
      hide Candidates, Applies, Signed, Ahead;
      selected := map[];
      var candidates := Candidates(View(), client, None, |rows|);
      ghost var s := View();
      for i := 0 to |candidates|
        invariant View() == s
        invariant forall key :: key in selected ==> Chosen(rules, s, client, candidates, i, key, selected[key])
        invariant forall k :: 0 <= k < i && Eligible(Component, rules, s, client, None, candidates[k]) ==> SlotOf(s.rows[candidates[k]].value) in selected
      {
        var release := rows[candidates[i]].value;
        var key := SlotOf(release);
        if key !in selected && Applies(rules, release, client) {
          if release.artifact in storage && Signed(Component, rules, release) {
            selected := selected[key := candidates[i]];
          }
        }
      }
    }
  }

  /** Among the first `n` candidates, `pk` is the first eligible one of its key. */
  ghost predicate Chosen(rules: Rules, s: State, client: Client, candidates: seq<nat>, n: nat, key: Slot, pk: nat)
    requires n <= |candidates|
  {
    && Eligible(Component, rules, s, client, None, pk) && SlotOf(s.rows[pk].value) == key
    && exists k :: 0 <= k < n && candidates[k] == pk && NoneBefore(rules, s, client, candidates, k, key)
  }

  ghost predicate NoneBefore(rules: Rules, s: State, client: Client, candidates: seq<nat>, k: nat, key: Slot)
    requires k <= |candidates|
  {
    forall j | 0 <= j < k :: Eligible(Component, rules, s, client, None, candidates[j]) ==> SlotOf(s.rows[candidates[j]].value) != key
  }
}
