/** Which saves of a release are accepted, what they write, and what the publish and revoke
    actions of the panel come to. */
module ReleaseSaves {
  import opened Wrappers
  import opened Releases
  import opened ReleaseRuns
  import Routing = P3Routing

  // ------------------------------------------------------------------ target lists

  predicate GoodTarget(v: string) {
    1 <= |Routing.Strip(v)| <= 160
  }

  ghost predicate IsClean(c: seq<string>) {
    && (forall i | 0 <= i < |c| :: GoodTarget(c[i]) && Routing.Strip(c[i]) == c[i])
    && (forall i, j | 0 <= i < j < |c| :: c[i] != c[j])
  }

  lemma {:induction false} StripTwice(s: string)
    ensures Routing.Strip(Routing.Strip(s)) == Routing.Strip(s)
    decreases |s|
  {
    if s != "" {
      if Routing.IsSpace(s[0]) {
        StripTwice(s[1..]);
      } else if Routing.IsSpace(s[|s| - 1]) {
        StripTwice(s[..|s| - 1]);
      }
    }
  }

  /** Some entry is `x` once stripped, and none up to there is `y`. */
  ghost predicate SeenFirst(values: seq<string>, x: string, y: string) {
    exists a :: 0 <= a < |values| && Routing.Strip(values[a]) == x && forall b | 0 <= b <= a :: Routing.Strip(values[b]) != y
  }

  /** The stripped entries, each once, in the order of their first appearance. */
  ghost predicate IsCleaned(values: seq<string>, c: seq<string>) {
    && IsClean(c)
    && (forall x :: x in c <==> exists i :: 0 <= i < |values| && Routing.Strip(values[i]) == x)
    && (forall i, j | 0 <= i < j < |c| :: SeenFirst(values, c[i], c[j]))
  }

  /** A target list is refused exactly for a blank or overlong entry, and otherwise cleaned. */
  lemma {:induction false} CleanExactly(values: seq<string>)
    ensures CleanTargets(values).Some? <==> forall i | 0 <= i < |values| :: GoodTarget(values[i])
    ensures CleanTargets(values).Some? ==> IsCleaned(values, CleanTargets(values).value)
    decreases |values|
  {
    if values == [] {
      assert CleanTargets(values) == Some([]);
    } else {
      var before := values[..|values| - 1];
      hide *;
      CleanExactly(before);
      CleanNext(values);
      AllGoodNext(values);
      if CleanTargets(values).Some? {
        CleanedLast(values, CleanTargets(before).value);
      }
    }
  }

  lemma AllGoodNext(values: seq<string>)
    requires values != []
    ensures var before := values[..|values| - 1];
            (forall i | 0 <= i < |values| :: GoodTarget(values[i])) <==>
              (forall i | 0 <= i < |before| :: GoodTarget(before[i])) && GoodTarget(values[|values| - 1])
  {
    hide GoodTarget;
    var before := values[..|values| - 1];
    assert forall i | 0 <= i < |before| :: before[i] == values[i];
  }

  lemma CleanNext(values: seq<string>)
    requires values != []
    ensures var before, item := CleanTargets(values[..|values| - 1]), Routing.Strip(values[|values| - 1]);
            CleanTargets(values) ==
              if before.None? || !GoodTarget(values[|values| - 1]) then None
              else Some(if item in before.value then before.value else before.value + [item])
  {
    hide Routing.Strip;
    var item := Routing.Strip(values[|values| - 1]);
    assert |item| == 0 <==> item == "";
  }

  lemma SeenEarlier(values: seq<string>, n: nat, x: string, y: string)
    requires n <= |values| && SeenFirst(values[..n], x, y)
    ensures SeenFirst(values, x, y)
  {
    hide Routing.Strip;
    var before := values[..n];
    var a :| 0 <= a < |before| && Routing.Strip(before[a]) == x && forall b | 0 <= b <= a :: Routing.Strip(before[b]) != y;
    assert values[a] == before[a];
    forall b | 0 <= b <= a ensures Routing.Strip(values[b]) != y {
      assert values[b] == before[b];
    }
  }

  lemma SeenBefore(values: seq<string>, n: nat, x: string, y: string)
    requires n <= |values| && (exists i :: 0 <= i < n && Routing.Strip(values[i]) == x)
    requires forall i | 0 <= i < n :: Routing.Strip(values[i]) != y
    ensures SeenFirst(values, x, y)
  {
    hide Routing.Strip;
    var a :| 0 <= a < n && Routing.Strip(values[a]) == x;
    assert forall b | 0 <= b <= a :: Routing.Strip(values[b]) != y;
  }

  lemma LastMember(values: seq<string>, c0: seq<string>, x: string)
    requires values != [] && IsCleaned(values[..|values| - 1], c0)
    ensures (exists i :: 0 <= i < |values| && Routing.Strip(values[i]) == x) <==> x in c0 || x == Routing.Strip(values[|values| - 1])
  {
    hide Routing.Strip, SeenFirst, IsClean;
    var n := |values| - 1;
    var before := values[..n];
    assert forall i | 0 <= i < n :: before[i] == values[i];
    if x in c0 {
      var i :| 0 <= i < |before| && Routing.Strip(before[i]) == x;
      assert Routing.Strip(values[i]) == x;
    }
  }

  lemma LastSeen(values: seq<string>, c0: seq<string>, i: nat)
    requires values != [] && IsCleaned(values[..|values| - 1], c0) && i < |c0| && Routing.Strip(values[|values| - 1]) !in c0
    ensures SeenFirst(values, c0[i], Routing.Strip(values[|values| - 1]))
  {
    hide Routing.Strip, SeenFirst, IsClean;
    var n := |values| - 1;
    var before := values[..n];
    assert forall i | 0 <= i < n :: before[i] == values[i];
    assert c0[i] in c0;
    var a :| 0 <= a < |before| && Routing.Strip(before[a]) == c0[i];
    assert Routing.Strip(values[a]) == c0[i];
    forall b | 0 <= b < n ensures Routing.Strip(values[b]) != Routing.Strip(values[n]) {
      assert Routing.Strip(before[b]) in c0;
    }
    SeenBefore(values, n, c0[i], Routing.Strip(values[n]));
  }

  lemma CleanedLast(values: seq<string>, c0: seq<string>)
    requires values != [] && GoodTarget(values[|values| - 1]) && IsCleaned(values[..|values| - 1], c0)
    ensures var item := Routing.Strip(values[|values| - 1]); IsCleaned(values, if item in c0 then c0 else c0 + [item])
  {
    var n := |values| - 1;
    var item := Routing.Strip(values[n]);
    StripTwice(values[n]);
    var c := if item in c0 then c0 else c0 + [item];
    assert IsClean(c) by {
      hide Routing.Strip, SeenFirst;
    }
    hide Routing.Strip, SeenFirst, GoodTarget;
    forall x ensures x in c <==> exists i :: 0 <= i < |values| && Routing.Strip(values[i]) == x {
      LastMember(values, c0, x);
    }
    forall i, j | 0 <= i < j < |c| ensures SeenFirst(values, c[i], c[j]) {
      if j < |c0| {
        SeenEarlier(values, n, c[i], c[j]);
      } else {
        LastSeen(values, c0, i);
      }
    }
  }

  lemma {:induction false} CleanStays(c: seq<string>)
    requires IsClean(c)
    ensures CleanTargets(c) == Some(c)
    decreases |c|
  {
    if c != [] {
      var n := |c| - 1;
      assert c == c[..n] + [c[n]];
      CleanStays(c[..n]);
    }
  }

  /** A clean list takes a further entry, stripped, unless it has it. */
  function Widened(c: seq<string>, v: string): seq<string> {
    if Routing.Strip(v) in c then c else c + [Routing.Strip(v)]
  }

  lemma CleanWidens(c: seq<string>, v: string)
    requires IsClean(c)
    ensures CleanTargets(With(c, v)) == if GoodTarget(v) then Some(Widened(c, v)) else None
    ensures GoodTarget(v) ==> IsClean(Widened(c, v))
  {
    hide Routing.Strip;
    CleanStays(c);
    StripTwice(v);
    if v in c {
      var i :| 0 <= i < |c| && c[i] == v;
    } else {
      assert (c + [v])[..|c|] == c;
    }
  }

  // ------------------------------------------------------------------ which saves are accepted

  predicate FieldsOk(kind: Kind, rules: Rules, item: Release) {
    && rules.version(item.version) && 1 <= item.build && (item.channel == "public" || item.channel == "testing")
    && match kind
       case Application => item.mode in ["optional", "silent", "mandatory"] && item.component == "" && item.slot == ""
       case Component =>
         && item.mode in ["hot", "bridge-restart", "app-restart"]
         && item.component in ["ui", "engine", "config", "bridge", "browser", "extension"] && rules.slot(item.slot)
  }

  /** The save looks at a file: it is uploaded, or the row is new or names another one. */
  predicate TakesFile(s: State, pk: Option<nat>, item: Release, upload: Option<File>)
    requires pk.Some? ==> Present(s, pk.value)
  {
    item.artifact != "" && (pk.None? || upload.Some? || item.artifact != s.rows[pk.value].value.artifact)
  }

  predicate FileOk(kind: Kind, rules: Rules, storage: map<string, File>, item: Release, upload: Option<File>) {
    && (upload.Some? || item.artifact in storage)
    && var f := if upload.Some? then upload.value else storage[item.artifact];
       f.size <= rules.maxBytes && (kind == Application ==> f.executable)
  }

  /** The stored row: targets cleaned, the signature stripped, and the derived fields from the
      file, or as they were. */
  predicate Writes(rules: Rules, s: State, pk: Option<nat>, item: Release, upload: Option<File>, r: Release)
    requires pk.Some? ==> Present(s, pk.value)
  {
    && CleanTargets(item.offices) == Some(r.offices) && CleanTargets(item.devices) == Some(r.devices)
    && r.signature == Routing.Strip(item.signature)
    && (TakesFile(s, pk, item, upload) ==>
          && (upload.Some? || item.artifact in s.storage)
          && r.filename == rules.base(item.artifact)
          && var f := if upload.Some? then upload.value else s.storage[item.artifact];
             r.sha256 == f.sha256 && r.size == f.size)
    && (!TakesFile(s, pk, item, upload) ==>
          var was := if pk.Some? then s.rows[pk.value].value else item;
          r.filename == was.filename && r.sha256 == was.sha256 && r.size == was.size)
    && r == item.(offices := r.offices, devices := r.devices, signature := r.signature, filename := r.filename, sha256 := r.sha256, size := r.size)
  }

  /** Nothing of a release that is out may change but its status, its publication time, its
      targets and the mode of an application; of a revoked application not even the last two. */
  predicate KeepsFrozen(kind: Kind, was: Release, r: Release) {
    && r == was.(status := r.status, publishedAt := r.publishedAt, offices := r.offices, devices := r.devices, mode := r.mode)
    && (kind == Component ==> r.mode == was.mode)
    && (kind == Application && was.status == Revoked ==> r.mode == was.mode && r.offices == was.offices && r.devices == was.devices)
  }

  predicate StatusOk(kind: Kind, s: State, pk: Option<nat>, item: Release)
    requires pk.Some? ==> Present(s, pk.value)
  {
    if pk.None? then item.status != Published && (kind == Application ==> item.status == Draft)
    else
      match s.rows[pk.value].value.status
      case Draft => kind == Application ==> item.status != Revoked
      case Published => item.status != Draft
      case Revoked => item.status == Revoked
  }

  /** No other row of its track has the build; for a first publication, none that is out has a
      higher one. */
  ghost predicate BuildOk(s: State, pk: Option<nat>, r: Release) {
    forall q: nat | Present(s, q) && pk != Some(q) && SameTrack(s.rows[q].value, r) :: s.rows[q].value.build != r.build
  }

  ghost predicate IsHighest(s: State, r: Release) {
    forall q: nat | Present(s, q) && SameTrack(s.rows[q].value, r) && s.rows[q].value.status != Draft :: s.rows[q].value.build <= r.build
  }

  predicate Checked(kind: Kind, rules: Rules, storage: map<string, File>, r: Release) {
    && r.artifact != "" && r.artifact in storage && storage[r.artifact].sha256 == r.sha256 && storage[r.artifact].size == r.size
    && r.signature != ""
    && rules.signed(r.(status := Draft, publishedAt := None, offices := [], devices := [], mode := if kind == Application then "" else r.mode))
  }

  /** A save writes row `r` and leaves `storage`. */
  ghost predicate SavesAs(kind: Kind, rules: Rules, s: State, pk: Option<nat>, item: Release, upload: Option<File>,
                          r: Release, storage: map<string, File>)
    requires pk.Some? ==> Present(s, pk.value)
  {
    && FieldsOk(kind, rules, item) && StatusOk(kind, s, pk, item)
    && (TakesFile(s, pk, item, upload) ==> FileOk(kind, rules, s.storage, item, upload))
    && Writes(rules, s, pk, item, upload, r)
    && storage == (if upload.Some? then s.storage[item.artifact := upload.value] else s.storage)
    && (pk.Some? && s.rows[pk.value].value.status != Draft ==> KeepsFrozen(kind, s.rows[pk.value].value, r))
    && BuildOk(s, pk, r)
    && (item.status == Published && (pk.Some? ==> s.rows[pk.value].value.status != Published) ==>
          IsHighest(s, r) && Checked(kind, rules, storage, r))
  }

  function Rows(s: State, pk: Option<nat>, r: Release): seq<Option<Release>>
    requires pk.Some? ==> Present(s, pk.value)
  {
    if pk.Some? then s.rows[pk.value := Some(r)] else s.rows + [Some(r)]
  }

  lemma RowsTell(s: State, pk: Option<nat>, a: Release, b: Release)
    requires pk.Some? ==> Present(s, pk.value)
    ensures Rows(s, pk, a) == Rows(s, pk, b) <==> a == b
  {
    var at := if pk.Some? then pk.value else |s.rows|;
    assert Rows(s, pk, a)[at] == Some(a) && Rows(s, pk, b)[at] == Some(b);
  }

  lemma FieldsAgree(kind: Kind, rules: Rules, item: Release)
    ensures FieldsOk(kind, rules, item) <==> FieldsValid(kind, rules, item)
  {
  }

  lemma DerivedAgrees(kind: Kind, rules: Rules, s: State, pk: Option<nat>, item: Release, upload: Option<File>,
                      cleaned: Release, r: Release)
    requires pk.Some? ==> Present(s, pk.value)
    requires CleanTargets(item.offices) == Some(cleaned.offices) && CleanTargets(item.devices) == Some(cleaned.devices)
    requires cleaned == item.(offices := cleaned.offices, devices := cleaned.devices, signature := Routing.Strip(item.signature))
    ensures Derived(kind, rules, s, Find(s, pk), cleaned, upload) == Some(r) <==>
              (TakesFile(s, pk, item, upload) ==> FileOk(kind, rules, s.storage, item, upload)) && Writes(rules, s, pk, item, upload, r)
  {
    hide CleanTargets, Routing.Strip;
  }

  lemma FrozenAgrees(kind: Kind, was: Release, r: Release)
    requires was.status != Draft
    ensures Unfrozen(kind, was, r) <==>
              KeepsFrozen(kind, was, r) && (was.status == Published ==> r.status != Draft) && (was.status == Revoked ==> r.status == Revoked)
  {
  }

  lemma BuildsAgree(s: State, pk: Option<nat>, r: Release)
    ensures BuildOk(s, pk, r) <==> !BuildTaken(s, r, pk)
    ensures IsHighest(s, r) <==> !HigherBuildOut(s, r)
  {
    if BuildTaken(s, r, pk) {
      var q :| 0 <= q < |s.rows| && s.rows[q].Some? && SameTrack(s.rows[q].value, r) && s.rows[q].value.build == r.build && Some(q) != pk;
      assert Present(s, q);
    }
    if HigherBuildOut(s, r) {
      var q :| 0 <= q < |s.rows| && s.rows[q].Some? && SameTrack(s.rows[q].value, r) &&
               s.rows[q].value.build > r.build && s.rows[q].value.status != Draft;
      assert Present(s, q);
    }
  }

  lemma CheckedAgrees(kind: Kind, rules: Rules, storage: map<string, File>, r: Release)
    ensures Checked(kind, rules, storage, r) <==> Intact(storage, r) && Signed(kind, rules, r)
  {
  }

  /** The checks of a save on the row it is about to store. */
  ghost predicate Passes(kind: Kind, rules: Rules, s: State, pk: Option<nat>, item: Release, r: Release,
                         storage: map<string, File>)
    requires pk.Some? ==> Present(s, pk.value)
  {
    && FieldsOk(kind, rules, item) && StatusOk(kind, s, pk, item)
    && (pk.Some? && s.rows[pk.value].value.status != Draft ==> KeepsFrozen(kind, s.rows[pk.value].value, r))
    && BuildOk(s, pk, r)
    && (item.status == Published && (pk.Some? ==> s.rows[pk.value].value.status != Published) ==>
          IsHighest(s, r) && Checked(kind, rules, storage, r))
  }

  lemma SaveInSteps(kind: Kind, rules: Rules, s: State, pk: Option<nat>, item: Release, upload: Option<File>,
                    cleaned: Release, r: Release)
    requires pk.Some? ==> Present(s, pk.value)
    requires CleanTargets(item.offices) == Some(cleaned.offices) && CleanTargets(item.devices) == Some(cleaned.devices)
    requires cleaned == item.(offices := cleaned.offices, devices := cleaned.devices, signature := Routing.Strip(item.signature))
    requires Derived(kind, rules, s, Find(s, pk), cleaned, upload) == Some(r)
    ensures Save(kind, rules, s, pk, item, upload) ==
              if Passes(kind, rules, s, pk, item, r, Stored(s, item, upload)) then Some(State(Rows(s, pk, r), Stored(s, item, upload))) else None
  {
    assert r.status == item.status;
    FieldsAgree(kind, rules, item);
    if pk.Some? && s.rows[pk.value].value.status != Draft {
      FrozenAgrees(kind, s.rows[pk.value].value, r);
    }
    BuildsAgree(s, pk, r);
    CheckedAgrees(kind, rules, Stored(s, item, upload), r);
    hide CleanTargets, Routing.Strip, FieldsOk, FieldsValid, Derived, KeepsFrozen, Unfrozen, BuildTaken,
         HigherBuildOut, BuildOk, IsHighest, Checked, Intact, Signed, Stored;
  }

  /** Every save: when it is accepted, and what it then stores. */
  lemma SaveExactly(kind: Kind, rules: Rules, s: State, pk: Option<nat>, item: Release, upload: Option<File>,
                    r: Release, storage: map<string, File>)
    requires pk.Some? ==> Present(s, pk.value)
    ensures Save(kind, rules, s, pk, item, upload) == Some(State(Rows(s, pk, r), storage)) <==> SavesAs(kind, rules, s, pk, item, upload, r, storage)
  {
    var offices, devices := CleanTargets(item.offices), CleanTargets(item.devices);
    if offices.Some? && devices.Some? {
      var cleaned := item.(offices := offices.value, devices := devices.value, signature := Routing.Strip(item.signature));
      var d := Derived(kind, rules, s, Find(s, pk), cleaned, upload);
      DerivedAgrees(kind, rules, s, pk, item, upload, cleaned, r);
      if d.Some? {
        SaveInSteps(kind, rules, s, pk, item, upload, cleaned, d.value);
        RowsTell(s, pk, d.value, r);
        hide Save, CleanTargets, Routing.Strip, FieldsOk, StatusOk, Derived, FileOk, KeepsFrozen, BuildOk, IsHighest,
             Checked, Rows, Present, TakesFile;
      } else {
        hide CleanTargets, Routing.Strip, FieldsOk, StatusOk, Derived, FileOk, Writes, KeepsFrozen, BuildOk,
             IsHighest, Checked, Startable, Unfrozen, MayPublish, Publishing, BuildTaken;
      }
    } else {
      hide CleanTargets, Routing.Strip, FieldsOk, StatusOk, Derived, FileOk, TakesFile, KeepsFrozen, BuildOk,
           IsHighest, Checked, Startable, Unfrozen, MayPublish, Publishing, BuildTaken;
    }
  }
}
