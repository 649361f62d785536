/** Runs of release steps: edits, publications and revocations of the admin and the panel,
    deletions of drafts, and files that come and go. */
module ReleaseRuns {
  import opened Wrappers
  import opened Releases

  // ------------------------------------------------------------------ panel steps

  datatype Audience = Everyone | Office(name: string) | Device(id: string)

  function With(values: seq<string>, value: string): seq<string> {
    if value in values then values else values + [value]
  }

  /** The row that the publish action of `panel_releases_api` saves; `None` is an error. */
  function PanelPublished(r: Release, channel: string, audience: Audience, now: int): Option<Release> {
    var extending := r.status == Published;
    if r.status == Revoked || channel !in CHANNELS || (extending && channel != r.channel) then None
    else
      var live := r.(channel := channel, status := Published, publishedAt := Some(now));
      var offices, devices := if extending then r.offices else [], if extending then r.devices else [];
      match audience
      case Everyone => Some(live.(offices := [], devices := []))
      case Office(name) => if name == "" then None else Some(live.(offices := With(offices, name), devices := devices))
      case Device(id) => if id == "" then None else Some(live.(offices := offices, devices := With(devices, id)))
  }

  /** The row that the revoke action saves. */
  function PanelRevoked(r: Release): Option<Release> {
    if r.status != Published then None else Some(r.(status := Revoked))
  }

  // ------------------------------------------------------------------ runs

  /** `published` lists the rows in the order of their first publication. */
  datatype World = World(s: State, published: seq<nat>)

  datatype Op =
    | SaveOp(pk: Option<nat>, item: Release, upload: Option<File>)
    | PublishOp(row: nat, channel: string, audience: Audience, now: int)
    | RevokeOp(row: nat)
    | DeleteDraftOp(row: nat)
    | FilesOp(storage: map<string, File>)

  /** How the admin and the panel move a status.  For applications `save` itself allows no
      other move of an existing row. */
  predicate Moves(existing: Option<Release>, item: Release) {
    if existing.None? then item.status == Draft
    else if existing.value.status == Draft then item.status != Revoked
    else if existing.value.status == Published then item.status != Draft
    else item.status == Revoked
  }

  predicate Enabled(w: World, op: Op) {
    match op
    case SaveOp(pk, item, _) => (pk.Some? ==> Present(w.s, pk.value)) && Moves(Find(w.s, pk), item)
    case PublishOp(pk, _, _, _) => Present(w.s, pk)
    case RevokeOp(pk) => Present(w.s, pk)
    case DeleteDraftOp(pk) => Present(w.s, pk) && w.s.rows[pk].value.status == Draft
    case FilesOp(_) => true
  }

  /** Save and note a first publication. */
  function Saved(kind: Kind, rules: Rules, w: World, pk: Option<nat>, item: Release, upload: Option<File>): World
    requires pk.Some? ==> Present(w.s, pk.value)
  {
    match Save(kind, rules, w.s, pk, item, upload)
    case None => w
    case Some(s) => World(s, if Publishing(Find(w.s, pk), item) && pk.Some? then w.published + [pk.value] else w.published)
  }

  function Step(kind: Kind, rules: Rules, w: World, op: Op): World
    requires Enabled(w, op)
  {
    match op
    case SaveOp(pk, item, upload) => Saved(kind, rules, w, pk, item, upload)
    case PublishOp(pk, channel, audience, now) =>
      var item := PanelPublished(w.s.rows[pk].value, channel, audience, now);
      if item.None? then w else Saved(kind, rules, w, Some(pk), item.value, None)
    case RevokeOp(pk) =>
      var item := PanelRevoked(w.s.rows[pk].value);
      if item.None? then w else Saved(kind, rules, w, Some(pk), item.value, None)
    case DeleteDraftOp(pk) => w.(s := w.s.(rows := w.s.rows[pk := None]))
    case FilesOp(storage) => w.(s := w.s.(storage := storage))
  }

  predicate Legal(kind: Kind, rules: Rules, w: World, ops: seq<Op>)
    decreases |ops|
  {
    ops == [] || (Enabled(w, ops[0]) && Legal(kind, rules, Step(kind, rules, w, ops[0]), ops[1..]))
  }

  function Run(kind: Kind, rules: Rules, w: World, ops: seq<Op>): World
    requires Legal(kind, rules, w, ops)
    decreases |ops|
  {
    if ops == [] then w else Run(kind, rules, Step(kind, rules, w, ops[0]), ops[1..])
  }

  const START := World(State([], map[]), [])

  // ------------------------------------------------------------------ the invariant

  predicate RowSound(kind: Kind, r: Release) {
    r.component in Components(kind) && (kind == Application ==> r.slot == "")
  }

  ghost predicate RowsSound(kind: Kind, s: State) {
    && (forall pk: nat | Present(s, pk) :: RowSound(kind, s.rows[pk].value))
    && (forall a: nat, b: nat | a < b && Present(s, a) && Present(s, b) ::
          SameTrack(s.rows[a].value, s.rows[b].value) ==> s.rows[a].value.build != s.rows[b].value.build)
  }

  predicate Out(s: State, pk: nat) {
    Present(s, pk) && s.rows[pk].value.status != Draft
  }

  /** In a track, later publications have higher builds. */
  predicate InOrder(s: State, a: nat, b: nat)
    requires Present(s, a) && Present(s, b)
  {
    a != b && (SameTrack(s.rows[a].value, s.rows[b].value) ==> s.rows[a].value.build < s.rows[b].value.build)
  }

  ghost predicate PublishedSound(w: World) {
    && (forall i | 0 <= i < |w.published| :: Out(w.s, w.published[i]))
    && (forall pk: nat | Out(w.s, pk) :: pk in w.published)
    && (forall i, j | 0 <= i < j < |w.published| :: InOrder(w.s, w.published[i], w.published[j]))
  }

  ghost predicate Inv(kind: Kind, w: World) {
    RowsSound(kind, w.s) && PublishedSound(w)
  }

  /** What happens to a row that is out: it stays, with its identity, and a revocation is final. */
  predicate Kept(kind: Kind, s: State, t: State, pk: nat)
    requires Present(s, pk)
  {
    && Present(t, pk) && Identity(kind, t.rows[pk].value) == Identity(kind, s.rows[pk].value)
    && t.rows[pk].value.status != Draft
    && (s.rows[pk].value.status == Revoked ==> t.rows[pk].value.status == Revoked)
    && (kind == Application && s.rows[pk].value.status == Revoked ==>
          t.rows[pk].value.mode == s.rows[pk].value.mode && t.rows[pk].value.offices == s.rows[pk].value.offices
          && t.rows[pk].value.devices == s.rows[pk].value.devices)
  }

  /** A save that succeeds writes one row, valid and with a free build. */
  lemma SaveWrites(kind: Kind, rules: Rules, s: State, pk: Option<nat>, item: Release, upload: Option<File>)
    requires pk.Some? ==> Present(s, pk.value)
    ensures var r := Save(kind, rules, s, pk, item, upload);
            r.Some? ==>
              var at := if pk.Some? then pk.value else |s.rows|;
              && at < |r.value.rows| && r.value.rows[at].Some?
              && r.value.rows == (if pk.Some? then s.rows[at := r.value.rows[at]] else s.rows + [r.value.rows[at]])
              && var row := r.value.rows[at].value;
                 && RowSound(kind, row) && row.status == item.status && row.build == item.build && SameTrack(row, item)
                 && !BuildTaken(s, row, pk)
                 && (Find(s, pk).Some? && Find(s, pk).value.status != Draft ==> Unfrozen(kind, Find(s, pk).value, row))
                 && (Publishing(Find(s, pk), item) ==> Find(s, pk).Some? && !HigherBuildOut(s, row))
  {
  }

  lemma SaveKeepsRows(kind: Kind, rules: Rules, s: State, pk: Option<nat>, item: Release, upload: Option<File>)
    requires RowsSound(kind, s) && (pk.Some? ==> Present(s, pk.value))
    ensures var r := Save(kind, rules, s, pk, item, upload); r.Some? ==> RowsSound(kind, r.value)
  {
    SaveWrites(kind, rules, s, pk, item, upload);
    hide Save, RowSound, BuildTaken, HigherBuildOut;
    var r := Save(kind, rules, s, pk, item, upload);
    if r.Some? {
      var at := if pk.Some? then pk.value else |s.rows|;
      forall a: nat, b: nat | a < b && Present(r.value, a) && Present(r.value, b) && SameTrack(r.value.rows[a].value, r.value.rows[b].value)
        ensures r.value.rows[a].value.build != r.value.rows[b].value.build
      {
        if a == at || b == at {
          FreeBuild(s, r.value.rows[at].value, pk, if a == at then b else a);
        }
      }
    }
  }

  lemma FreeBuild(s: State, row: Release, pk: Option<nat>, other: nat)
    requires !BuildTaken(s, row, pk) && Present(s, other) && Some(other) != pk && SameTrack(s.rows[other].value, row)
    ensures s.rows[other].value.build != row.build
  {
  }

  /** Rows that are out survive every save. */
  lemma SaveKeepsOut(kind: Kind, rules: Rules, s: State, pk: Option<nat>, item: Release, upload: Option<File>, out: nat)
    requires (pk.Some? ==> Present(s, pk.value)) && Out(s, out)
    ensures var r := Save(kind, rules, s, pk, item, upload); r.Some? ==> Kept(kind, s, r.value, out)
  {
    SaveWrites(kind, rules, s, pk, item, upload);
  }

  lemma KeptKeepsTrack(kind: Kind, s: State, t: State, pk: nat)
    requires Present(s, pk) && Kept(kind, s, t, pk)
    ensures SameTrack(s.rows[pk].value, t.rows[pk].value) && s.rows[pk].value.build == t.rows[pk].value.build
  {
    assert Identity(kind, t.rows[pk].value).component == t.rows[pk].value.component;
    assert Identity(kind, t.rows[pk].value).slot == t.rows[pk].value.slot;
    assert Identity(kind, t.rows[pk].value).channel == t.rows[pk].value.channel;
    assert Identity(kind, t.rows[pk].value).build == t.rows[pk].value.build;
  }

  /** A first publication has a higher build than everything out in its track. */
  lemma PublicationIsHigher(kind: Kind, rules: Rules, s: State, pk: nat, item: Release, upload: Option<File>, out: nat)
    requires Present(s, pk) && Out(s, out) && out != pk && Publishing(Find(s, Some(pk)), item)
    requires Save(kind, rules, s, Some(pk), item, upload).Some?
    ensures InOrder(Save(kind, rules, s, Some(pk), item, upload).value, out, pk)
  {
    SaveWrites(kind, rules, s, Some(pk), item, upload);
    var r := Save(kind, rules, s, Some(pk), item, upload).value;
    hide Save;
    var row := r.rows[pk].value;
    if SameTrack(s.rows[out].value, row) {
      FreeBuild(s, row, Some(pk), out);
      assert s.rows[out].Some? && SameTrack(s.rows[out].value, row);
    }
  }

  lemma SavedKeepsPublished(kind: Kind, rules: Rules, w: World, pk: Option<nat>, item: Release, upload: Option<File>)
    requires PublishedSound(w) && (pk.Some? ==> Present(w.s, pk.value)) && Moves(Find(w.s, pk), item)
    ensures PublishedSound(Saved(kind, rules, w, pk, item, upload))
  {
    hide Save, InOrder, Kept, Moves, Publishing;
    var r := Save(kind, rules, w.s, pk, item, upload);
    if r.Some? {
      var v := Saved(kind, rules, w, pk, item, upload);
      forall i | 0 <= i < |w.published|
        ensures Out(v.s, w.published[i])
        ensures SameTrack(w.s.rows[w.published[i]].value, v.s.rows[w.published[i]].value)
        ensures w.s.rows[w.published[i]].value.build == v.s.rows[w.published[i]].value.build
      {
        SaveKeepsOut(kind, rules, w.s, pk, item, upload, w.published[i]);
        KeptKeepsTrack(kind, w.s, v.s, w.published[i]);
        KeptIsOut(kind, w.s, v.s, w.published[i]);
      }
      forall i, j | 0 <= i < j < |w.published| ensures InOrder(v.s, w.published[i], w.published[j]) {
        OrderSurvives(w.s, v.s, w.published[i], w.published[j]);
      }
      NewlyOut(kind, rules, w.s, pk, item, upload);
      if Publishing(Find(w.s, pk), item) && pk.Some? {
        forall i | 0 <= i < |w.published| ensures InOrder(v.s, w.published[i], pk.value) {
          PublicationIsHigher(kind, rules, w.s, pk.value, item, upload, w.published[i]);
        }
      }
    }
  }

  lemma KeptIsOut(kind: Kind, s: State, t: State, pk: nat)
    requires Present(s, pk) && Kept(kind, s, t, pk)
    ensures Out(t, pk)
  {
  }

  lemma OrderSurvives(s: State, t: State, a: nat, b: nat)
    requires Present(s, a) && Present(s, b) && Present(t, a) && Present(t, b) && InOrder(s, a, b)
    requires SameTrack(s.rows[a].value, t.rows[a].value) && s.rows[a].value.build == t.rows[a].value.build
    requires SameTrack(s.rows[b].value, t.rows[b].value) && s.rows[b].value.build == t.rows[b].value.build
    ensures InOrder(t, a, b)
  {
  }

  /** A save lets out exactly the row it publishes, and that row was a draft. */
  lemma NewlyOut(kind: Kind, rules: Rules, s: State, pk: Option<nat>, item: Release, upload: Option<File>)
    requires (pk.Some? ==> Present(s, pk.value)) && Moves(Find(s, pk), item) && Save(kind, rules, s, pk, item, upload).Some?
    ensures var t := Save(kind, rules, s, pk, item, upload).value;
            && (forall p: nat | Out(t, p) :: Out(s, p) || (Publishing(Find(s, pk), item) && pk == Some(p)))
            && (Publishing(Find(s, pk), item) ==> pk.Some? && !Out(s, pk.value) && Out(t, pk.value))
  {
    SaveWrites(kind, rules, s, pk, item, upload);
    hide Save;
  }

  /** Panel actions move a status as the admin does. */
  lemma PanelMoves(r: Release, channel: string, audience: Audience, now: int)
    ensures var p := PanelPublished(r, channel, audience, now); p.Some? ==> Moves(Some(r), p.value)
    ensures PanelRevoked(r).Some? ==> Moves(Some(r), PanelRevoked(r).value)
  {
  }

  lemma SavedKeeps(kind: Kind, rules: Rules, w: World, pk: Option<nat>, item: Release, upload: Option<File>)
    requires Inv(kind, w) && (pk.Some? ==> Present(w.s, pk.value)) && Moves(Find(w.s, pk), item)
    ensures Inv(kind, Saved(kind, rules, w, pk, item, upload))
  {
    SaveKeepsRows(kind, rules, w.s, pk, item, upload);
    SavedKeepsPublished(kind, rules, w, pk, item, upload);
  }

  lemma StepKeeps(kind: Kind, rules: Rules, w: World, op: Op)
    requires Inv(kind, w) && Enabled(w, op)
    ensures Inv(kind, Step(kind, rules, w, op))
  {
    hide Save, Saved, PanelPublished, PanelRevoked, Moves;
    match op
    case SaveOp(pk, item, upload) => SavedKeeps(kind, rules, w, pk, item, upload);
    case PublishOp(pk, channel, audience, now) =>
      PanelMoves(w.s.rows[pk].value, channel, audience, now);
      var item := PanelPublished(w.s.rows[pk].value, channel, audience, now);
      if item.Some? {
        SavedKeeps(kind, rules, w, Some(pk), item.value, None);
      }
    case RevokeOp(pk) =>
      PanelMoves(w.s.rows[pk].value, "", Everyone, 0);
      if PanelRevoked(w.s.rows[pk].value).Some? {
        SavedKeeps(kind, rules, w, Some(pk), PanelRevoked(w.s.rows[pk].value).value, None);
      }
    case DeleteDraftOp(pk) =>
      var v := Step(kind, rules, w, op);
      forall i | 0 <= i < |w.published| ensures Out(v.s, w.published[i]) && v.s.rows[w.published[i]] == w.s.rows[w.published[i]] {
        assert Out(w.s, w.published[i]);
      }
      forall i, j | 0 <= i < j < |w.published| ensures InOrder(v.s, w.published[i], w.published[j]) {
        assert InOrder(w.s, w.published[i], w.published[j]);
      }
      forall out: nat | Out(v.s, out) ensures out in w.published {
        assert Out(w.s, out);
      }
      forall p: nat | Present(v.s, p) ensures Present(w.s, p) && v.s.rows[p] == w.s.rows[p] {}
    case FilesOp(storage) =>
      var v := Step(kind, rules, w, op);
      assert forall pk: nat :: Present(v.s, pk) == Present(w.s, pk) && Out(v.s, pk) == Out(w.s, pk);
      forall i, j | 0 <= i < j < |w.published| ensures InOrder(v.s, w.published[i], w.published[j]) {
        assert InOrder(w.s, w.published[i], w.published[j]);
      }
  }

  lemma {:induction false} RunKeeps(kind: Kind, rules: Rules, w: World, ops: seq<Op>)
    requires Inv(kind, w) && Legal(kind, rules, w, ops)
    ensures Inv(kind, Run(kind, rules, w, ops))
    decreases |ops|
  {
    hide Inv, Step;
    if ops != [] {
      StepKeeps(kind, rules, w, ops[0]);
      RunKeeps(kind, rules, Step(kind, rules, w, ops[0]), ops[1..]);
    }
  }
}
