/** What the publish and revoke actions of the panel come to, over every run, and what every row
    and every publication satisfies. */
module ReleasePanel {
  import opened Wrappers
  import opened Releases
  import opened ReleaseRuns
  import opened ReleaseSaves
  import Routing = P3Routing

  // ------------------------------------------------------------------ every row is valid

  ghost predicate RowValid(kind: Kind, rules: Rules, r: Release) {
    FieldsOk(kind, rules, r) && IsClean(r.offices) && IsClean(r.devices) && Routing.Strip(r.signature) == r.signature
  }

  ghost predicate AllValid(kind: Kind, rules: Rules, s: State) {
    forall pk: nat | Present(s, pk) :: RowValid(kind, rules, s.rows[pk].value)
  }

  /** The row that a save stores. */
  lemma StoredRow(kind: Kind, rules: Rules, s: State, pk: Option<nat>, item: Release,
                  upload: Option<File>) returns (r: Release, storage: map<string, File>)
    requires (pk.Some? ==> Present(s, pk.value)) && Save(kind, rules, s, pk, item, upload).Some?
    ensures SavesAs(kind, rules, s, pk, item, upload, r, storage)
    ensures Save(kind, rules, s, pk, item, upload) == Some(State(Rows(s, pk, r), storage))
    ensures RowValid(kind, rules, r)
  {
    var t := Save(kind, rules, s, pk, item, upload).value;
    storage := t.storage;
    SaveWrites(kind, rules, s, pk, item, upload);
    hide Save;
    r := t.rows[if pk.Some? then pk.value else |s.rows|].value;
    assert t.rows == Rows(s, pk, r);
    SaveExactly(kind, rules, s, pk, item, upload, r, storage);
    CleanExactly(item.offices);
    CleanExactly(item.devices);
    StripTwice(item.signature);
    hide IsClean, CleanTargets, Routing.Strip, StatusOk, FileOk, TakesFile, KeepsFrozen, BuildOk, IsHighest, Checked;
  }

  lemma SavedStaysValid(kind: Kind, rules: Rules, w: World, pk: Option<nat>, item: Release, upload: Option<File>)
    requires AllValid(kind, rules, w.s) && (pk.Some? ==> Present(w.s, pk.value))
    ensures AllValid(kind, rules, Saved(kind, rules, w, pk, item, upload).s)
  {
    hide Save, SavesAs, RowValid;
    if Save(kind, rules, w.s, pk, item, upload).Some? {
      var r, storage := StoredRow(kind, rules, w.s, pk, item, upload);
    }
  }

  lemma StepStaysValid(kind: Kind, rules: Rules, w: World, op: Op)
    requires AllValid(kind, rules, w.s) && Enabled(w, op)
    ensures AllValid(kind, rules, Step(kind, rules, w, op).s)
  {
    hide Saved, RowValid, PanelPublished, PanelRevoked, Moves;
    match op
    case SaveOp(pk, item, upload) => SavedStaysValid(kind, rules, w, pk, item, upload);
    case PublishOp(pk, channel, audience, now) =>
      var item := PanelPublished(w.s.rows[pk].value, channel, audience, now);
      if item.Some? {
        SavedStaysValid(kind, rules, w, Some(pk), item.value, None);
      }
    case RevokeOp(pk) =>
      var item := PanelRevoked(w.s.rows[pk].value);
      if item.Some? {
        SavedStaysValid(kind, rules, w, Some(pk), item.value, None);
      }
    case DeleteDraftOp(pk) =>
      var v := Step(kind, rules, w, op);
      forall p: nat | Present(v.s, p) ensures RowValid(kind, rules, v.s.rows[p].value) {
        assert Present(w.s, p) && v.s.rows[p] == w.s.rows[p];
      }
    case FilesOp(_) =>
      var v := Step(kind, rules, w, op);
      forall p: nat | Present(v.s, p) ensures RowValid(kind, rules, v.s.rows[p].value) {
        assert Present(w.s, p);
      }
  }

  lemma {:induction false} RunStaysValid(kind: Kind, rules: Rules, w: World, ops: seq<Op>)
    requires AllValid(kind, rules, w.s) && Legal(kind, rules, w, ops)
    ensures AllValid(kind, rules, Run(kind, rules, w, ops).s)
    decreases |ops|
  {
    if ops != [] {
      hide AllValid, Step;
      StepStaysValid(kind, rules, w, ops[0]);
      RunStaysValid(kind, rules, Step(kind, rules, w, ops[0]), ops[1..]);
    }
  }

  /** After any run every row is valid: its version, build, channel, mode, component and slot, its
      target lists, which are stripped, distinct and not blank, and its signature. */
  lemma RowsAreValid(kind: Kind, rules: Rules, ops: seq<Op>, pk: nat)
    requires Legal(kind, rules, START, ops)
    ensures var s := Run(kind, rules, START, ops).s; Present(s, pk) ==> RowValid(kind, rules, s.rows[pk].value)
  {
    RunStaysValid(kind, rules, START, ops);
  }

  // ------------------------------------------------------------------ publications

  /** Whenever a step publishes a row, the stored file has the size and digest of the row, the
      signature verifies, and no row of its track that is out has a higher build. */
  lemma PublicationsAreChecked(kind: Kind, rules: Rules, w: World, op: Op)
    requires Enabled(w, op) && Step(kind, rules, w, op).published != w.published
    ensures var v := Step(kind, rules, w, op);
            && |v.published| == |w.published| + 1 && v.published[..|w.published|] == w.published
            && var pk := v.published[|w.published|];
               && Present(v.s, pk) && v.s.rows[pk].value.status == Published
               && Present(w.s, pk) && w.s.rows[pk].value.status != Published
               && Checked(kind, rules, v.s.storage, v.s.rows[pk].value) && IsHighest(w.s, v.s.rows[pk].value)
  {
    hide Save, SavesAs, PanelPublished, PanelRevoked, Moves, Checked, IsHighest;
    match op
    case SaveOp(pk, item, upload) => SavedIsChecked(kind, rules, w, pk, item, upload);
    case PublishOp(pk, channel, audience, now) =>
      SavedIsChecked(kind, rules, w, Some(pk), PanelPublished(w.s.rows[pk].value, channel, audience, now).value, None);
    case RevokeOp(pk) =>
      SavedIsChecked(kind, rules, w, Some(pk), PanelRevoked(w.s.rows[pk].value).value, None);
    case _ =>
  }

  lemma SavedIsChecked(kind: Kind, rules: Rules, w: World, pk: Option<nat>, item: Release, upload: Option<File>)
    requires (pk.Some? ==> Present(w.s, pk.value)) && Saved(kind, rules, w, pk, item, upload).published != w.published
    ensures var v := Saved(kind, rules, w, pk, item, upload);
            && |v.published| == |w.published| + 1 && v.published[..|w.published|] == w.published
            && var at := v.published[|w.published|];
               && Present(v.s, at) && v.s.rows[at].value.status == Published
               && Present(w.s, at) && w.s.rows[at].value.status != Published
               && Checked(kind, rules, v.s.storage, v.s.rows[at].value) && IsHighest(w.s, v.s.rows[at].value)
  {
    hide Save, RowValid, FieldsOk, StatusOk, FileOk, TakesFile, KeepsFrozen, BuildOk, Checked, IsHighest,
         CleanTargets, Routing.Strip;
    var r, storage := StoredRow(kind, rules, w.s, pk, item, upload);
    assert (w.published + [pk.value])[..|w.published|] == w.published;
  }

  // ------------------------------------------------------------------ the panel

  predicate TargetOk(audience: Audience) {
    match audience
    case Everyone => true
    case Office(name) => GoodTarget(name)
    case Device(id) => GoodTarget(id)
  }

  /** The target lists after a publish: everyone empties both, a target widens its list, and a
      draft starts from empty lists. */
  function Retargeted(r: Release, audience: Audience): (seq<string>, seq<string>) {
    var offices, devices := if r.status == Published then r.offices else [], if r.status == Published then r.devices else [];
    match audience
    case Everyone => ([], [])
    case Office(name) => (Widened(offices, name), devices)
    case Device(id) => (offices, Widened(devices, id))
  }

  /** The row after a publish. */
  function PublishedRow(r: Release, channel: string, audience: Audience, now: int): Release {
    var (offices, devices) := Retargeted(r, audience);
    r.(channel := channel, status := Published, publishedAt := Some(now), offices := offices, devices := devices)
  }

  /** When the panel may publish: a live release to a further target on its own channel, and a
      draft whose build is free and the highest of its track, with its file intact and signed. */
  ghost predicate PanelAccepts(kind: Kind, rules: Rules, s: State, pk: nat, channel: string, audience: Audience)
    requires Present(s, pk)
  {
    var r := s.rows[pk].value;
    && TargetOk(audience)
    && match r.status
       case Revoked => false
       case Published => channel == r.channel
       case Draft =>
         && (channel == "public" || channel == "testing")
         && BuildOk(s, Some(pk), r.(channel := channel)) && IsHighest(s, r.(channel := channel))
         && Checked(kind, rules, s.storage, r.(channel := channel))
  }

  lemma PanelItem(r: Release, channel: string, audience: Audience, now: int)
    requires IsClean(r.offices) && IsClean(r.devices)
    ensures PanelPublished(r, channel, audience, now).Some? && TargetOk(audience) ==>
              var item := PanelPublished(r, channel, audience, now).value;
              && item == PublishedRow(r, channel, audience, now).(offices := item.offices, devices := item.devices)
              && CleanTargets(item.offices) == Some(PublishedRow(r, channel, audience, now).offices)
              && CleanTargets(item.devices) == Some(PublishedRow(r, channel, audience, now).devices)
    ensures PanelPublished(r, channel, audience, now).Some? && !TargetOk(audience) ==>
              var item := PanelPublished(r, channel, audience, now).value;
              CleanTargets(item.offices).None? || CleanTargets(item.devices).None?
  {
    var none: seq<string> := [];
    assert IsClean(none);
    CleanStays(none);
    CleanStays(r.offices);
    CleanStays(r.devices);
    match audience
    case Everyone =>
    case Office(name) =>
      CleanWidens(if r.status == Published then r.offices else [], name);
    case Device(id) =>
      CleanWidens(if r.status == Published then r.devices else [], id);
  }

  lemma SameChecks(kind: Kind, rules: Rules, s: State, pk: nat, a: Release, b: Release)
    requires b == a.(status := b.status, publishedAt := b.publishedAt, offices := b.offices, devices := b.devices)
    ensures BuildOk(s, Some(pk), a) <==> BuildOk(s, Some(pk), b)
    ensures IsHighest(s, a) <==> IsHighest(s, b)
    ensures Checked(kind, rules, s.storage, a) <==> Checked(kind, rules, s.storage, b)
  {
    assert forall q: nat | Present(s, q) :: SameTrack(s.rows[q].value, a) <==> SameTrack(s.rows[q].value, b);
    hide SameTrack;
  }

  lemma BuildsAreFree(kind: Kind, s: State, pk: nat, r: Release)
    requires RowsSound(kind, s) && Present(s, pk) && SameTrack(s.rows[pk].value, r) && s.rows[pk].value.build == r.build
    ensures BuildOk(s, Some(pk), r)
  {
    forall q: nat | Present(s, q) && q != pk && SameTrack(s.rows[q].value, r) ensures s.rows[q].value.build != r.build {
      var a, b := if q < pk then q else pk, if q < pk then pk else q;
      assert a < b && Present(s, a) && Present(s, b) && SameTrack(s.rows[a].value, s.rows[b].value);
    }
  }

  /** What the save of a publish writes: no file is taken, and only the targets are cleaned. */
  lemma PanelWrites(kind: Kind, rules: Rules, s: State, pk: nat, channel: string, audience: Audience, now: int)
    requires Present(s, pk) && RowValid(kind, rules, s.rows[pk].value) && TargetOk(audience)
    requires PanelPublished(s.rows[pk].value, channel, audience, now).Some?
    ensures var r := s.rows[pk].value;
            var item, row := PanelPublished(r, channel, audience, now).value, PublishedRow(r, channel, audience, now);
            !TakesFile(s, Some(pk), item, None) && Writes(rules, s, Some(pk), item, None, row)
  {
    var r := s.rows[pk].value;
    PanelItem(r, channel, audience, now);
    hide CleanTargets, IsClean, Routing.Strip, TargetOk, Retargeted, PanelPublished, FieldsOk;
  }

  /** Its fields stay valid, its status may follow, and nothing frozen changes. */
  lemma PanelFollows(kind: Kind, rules: Rules, s: State, pk: nat, channel: string, audience: Audience, now: int)
    requires Present(s, pk) && FieldsOk(kind, rules, s.rows[pk].value) && PanelPublished(s.rows[pk].value, channel, audience, now).Some?
    ensures var r := s.rows[pk].value;
            var item, row := PanelPublished(r, channel, audience, now).value, PublishedRow(r, channel, audience, now);
            && FieldsOk(kind, rules, item) && StatusOk(kind, s, Some(pk), item) && item.status == Published && r.status != Revoked
            && (channel == "public" || channel == "testing")
            && (r.status == Published ==> channel == r.channel && KeepsFrozen(kind, r, row))
  {
    hide Retargeted;
  }

  /** On a valid row the save of a publish is accepted exactly when the panel may publish. */
  lemma PanelSavesAs(kind: Kind, rules: Rules, s: State, pk: nat, channel: string, audience: Audience, now: int)
    requires Present(s, pk) && RowValid(kind, rules, s.rows[pk].value) && RowsSound(kind, s) && TargetOk(audience)
    requires PanelPublished(s.rows[pk].value, channel, audience, now).Some?
    ensures var item := PanelPublished(s.rows[pk].value, channel, audience, now).value;
            SavesAs(kind, rules, s, Some(pk), item, None, PublishedRow(s.rows[pk].value, channel, audience, now), s.storage) <==>
              PanelAccepts(kind, rules, s, pk, channel, audience)
  {
    var r := s.rows[pk].value;
    var row := PublishedRow(r, channel, audience, now);
    PanelWrites(kind, rules, s, pk, channel, audience, now);
    PanelFollows(kind, rules, s, pk, channel, audience, now);
    SameChecks(kind, rules, s, pk, r.(channel := channel), row);
    if r.status == Published {
      BuildsAreFree(kind, s, pk, row);
    }
    hide RowsSound, RowValid, Writes, TakesFile, FieldsOk, StatusOk, KeepsFrozen, BuildOk, IsHighest, Checked,
         TargetOk, PanelPublished, PublishedRow;
  }

  lemma PanelSaves(kind: Kind, rules: Rules, s: State, pk: nat, channel: string, audience: Audience, now: int)
    requires Present(s, pk) && RowValid(kind, rules, s.rows[pk].value) && RowsSound(kind, s)
    requires PanelPublished(s.rows[pk].value, channel, audience, now).Some?
    ensures var r := s.rows[pk].value;
            Save(kind, rules, s, Some(pk), PanelPublished(r, channel, audience, now).value, None) ==
              if PanelAccepts(kind, rules, s, pk, channel, audience)
              then Some(State(s.rows[pk := Some(PublishedRow(r, channel, audience, now))], s.storage)) else None
  {
    var r := s.rows[pk].value;
    var item, row := PanelPublished(r, channel, audience, now).value, PublishedRow(r, channel, audience, now);
    PanelItem(r, channel, audience, now);
    SaveExactly(kind, rules, s, Some(pk), item, None, row, s.storage);
    if TargetOk(audience) {
      PanelSavesAs(kind, rules, s, pk, channel, audience, now);
    }
    hide Save, RowsSound, RowValid, CleanTargets, IsClean, BuildOk, IsHighest, Checked, TargetOk, Retargeted,
         PanelPublished, PublishedRow;
    if Save(kind, rules, s, Some(pk), item, None).Some? {
      var stored, storage := StoredRow(kind, rules, s, Some(pk), item, None);
      assert TargetOk(audience) ==> stored == row;
    }
  }

  /** After any run, a publish by the panel is accepted exactly when it may be, and then changes
      that row and nothing else: its channel, its status, its time and its targets.  The files
      stay, and a draft joins the published rows. */
  lemma PanelPublishesExactly(kind: Kind, rules: Rules, ops: seq<Op>, pk: nat, channel: string, audience: Audience, now: int)
    requires Legal(kind, rules, START, ops) && Present(Run(kind, rules, START, ops).s, pk)
    ensures var w := Run(kind, rules, START, ops);
            var r := w.s.rows[pk].value;
            Step(kind, rules, w, PublishOp(pk, channel, audience, now)) ==
              if PanelAccepts(kind, rules, w.s, pk, channel, audience)
              then World(State(w.s.rows[pk := Some(PublishedRow(r, channel, audience, now))], w.s.storage),
                         if r.status == Draft then w.published + [pk] else w.published)
              else w
  {
    RunKeeps(kind, rules, START, ops);
    RunStaysValid(kind, rules, START, ops);
    var w := Run(kind, rules, START, ops);
    assert RowsSound(kind, w.s) && RowValid(kind, rules, w.s.rows[pk].value);
    hide *;
    PanelPublishes(kind, rules, w, pk, channel, audience, now);
  }

  /** What the panel refuses by itself it may not publish. */
  lemma PanelRefuses(kind: Kind, rules: Rules, s: State, pk: nat, channel: string, audience: Audience, now: int)
    requires Present(s, pk) && FieldsOk(kind, rules, s.rows[pk].value) && PanelPublished(s.rows[pk].value, channel, audience, now).None?
    ensures !PanelAccepts(kind, rules, s, pk, channel, audience)
  {
    hide BuildOk, IsHighest, Checked;
    assert Routing.Strip("") == "";
  }

  lemma PanelPublishes(kind: Kind, rules: Rules, w: World, pk: nat, channel: string, audience: Audience, now: int)
    requires Enabled(w, PublishOp(pk, channel, audience, now)) && Present(w.s, pk)
    requires RowsSound(kind, w.s) && RowValid(kind, rules, w.s.rows[pk].value)
    ensures var r := w.s.rows[pk].value;
            Step(kind, rules, w, PublishOp(pk, channel, audience, now)) ==
              if PanelAccepts(kind, rules, w.s, pk, channel, audience)
              then World(State(w.s.rows[pk := Some(PublishedRow(r, channel, audience, now))], w.s.storage),
                         if r.status == Draft then w.published + [pk] else w.published)
              else w
  {
    var r := w.s.rows[pk].value;
    assert FieldsOk(kind, rules, r);
    hide RowsSound, RowValid, Save, PanelAccepts, PublishedRow, FieldsOk, Moves;
    if PanelPublished(r, channel, audience, now).Some? {
      PanelSaves(kind, rules, w.s, pk, channel, audience, now);
      PanelFollows(kind, rules, w.s, pk, channel, audience, now);
    } else {
      PanelRefuses(kind, rules, w.s, pk, channel, audience, now);
    }
    hide PanelPublished, StatusOk, KeepsFrozen;
  }

  /** After any run, a revocation turns exactly a live release into a revoked one and changes
      nothing else. */
  lemma PanelRevokesExactly(kind: Kind, rules: Rules, ops: seq<Op>, pk: nat)
    requires Legal(kind, rules, START, ops) && Present(Run(kind, rules, START, ops).s, pk)
    ensures var w := Run(kind, rules, START, ops);
            var r := w.s.rows[pk].value;
            Step(kind, rules, w, RevokeOp(pk)) ==
              if r.status == Published then World(State(w.s.rows[pk := Some(r.(status := Revoked))], w.s.storage), w.published) else w
  {
    RunKeeps(kind, rules, START, ops);
    RunStaysValid(kind, rules, START, ops);
    var w := Run(kind, rules, START, ops);
    assert RowsSound(kind, w.s) && RowValid(kind, rules, w.s.rows[pk].value);
    hide *;
    PanelRevokes(kind, rules, w, pk);
  }

  lemma PanelRevokes(kind: Kind, rules: Rules, w: World, pk: nat)
    requires Enabled(w, RevokeOp(pk)) && Present(w.s, pk) && RowsSound(kind, w.s) && RowValid(kind, rules, w.s.rows[pk].value)
    ensures var r := w.s.rows[pk].value;
            Step(kind, rules, w, RevokeOp(pk)) ==
              if r.status == Published then World(State(w.s.rows[pk := Some(r.(status := Revoked))], w.s.storage), w.published) else w
  {
    var r := w.s.rows[pk].value;
    if r.status == Published {
      CleanStays(r.offices);
      CleanStays(r.devices);
      BuildsAreFree(kind, w.s, pk, r.(status := Revoked));
      SaveExactly(kind, rules, w.s, Some(pk), r.(status := Revoked), None, r.(status := Revoked), w.s.storage);
    }
    hide RowsSound, IsClean, Save, BuildOk, IsHighest, Checked, Routing.Strip, CleanTargets;
  }
}
