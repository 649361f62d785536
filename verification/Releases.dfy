/** The signed release lifecycle (`save` of DesktopRelease and DesktopComponentRelease in
    control/models.py) and the update selectors (control/release_updates.py).

    A row's primary key is its position; a deleted draft leaves `None`.  Both tables follow
    the same rules up to the differences `Kind` marks; an application release has empty
    component, slot and metadata, and `mode` stands for a component's activation. */
module Releases {
  import opened Wrappers
  import Routing = P3Routing

  datatype Kind = Application | Component

  datatype Status = Draft | Published | Revoked

  datatype Release = Release(
    component: string,
    slot: string,
    channel: string,
    version: string,
    build: int,
    mode: string,
    offices: seq<string>,
    devices: seq<string>,
    metadata: string,
    artifact: string,
    filename: string,
    sha256: string,
    size: nat,
    signature: string,
    status: Status,
    publishedAt: Option<int>)

  /** A stored or uploaded file: what hashing it yields and whether it starts like an EXE. */
  datatype File = File(sha256: string, size: nat, executable: bool)

  datatype State = State(rows: seq<Option<Release>>, storage: map<string, File>)

  datatype Client = Client(office: string, device: string, channel: string)

  /** The validators, the size limit, the base name of a path, case folding, and whether the
      signature of a release verifies; it covers identity fields only. */
  datatype Rules = Rules(
    version: string -> bool,
    slot: string -> bool,
    maxBytes: nat,
    base: string -> string,
    fold: string -> string,
    signed: Release -> bool)

  const CHANNELS: set<string> := {"public", "testing"}

  function Modes(kind: Kind): set<string> {
    if kind == Application then {"optional", "silent", "mandatory"} else {"hot", "bridge-restart", "app-restart"}
  }

  function Components(kind: Kind): set<string> {
    if kind == Application then {""} else {"ui", "engine", "config", "bridge", "browser", "extension"}
  }

  // ------------------------------------------------------------------ identity

  /** The frozen fields; the rollout mode of an application is not one of them. */
  function Identity(kind: Kind, r: Release): Release {
    r.(status := Draft, publishedAt := None, offices := [], devices := [], mode := if kind == Application then "" else r.mode)
  }

  predicate Signed(kind: Kind, rules: Rules, r: Release) {
    r.signature != "" && rules.signed(Identity(kind, r))
  }

  /** Builds are ordered within a channel, for components within component, slot and channel. */
  predicate SameTrack(a: Release, b: Release) {
    a.component == b.component && a.slot == b.slot && a.channel == b.channel
  }

  predicate Present(s: State, pk: nat) {
    pk < |s.rows| && s.rows[pk].Some?
  }

  // ------------------------------------------------------------------ saving

  /** Strip, refuse blank or overlong entries, drop repetitions. */
  function CleanTargets(values: seq<string>): Option<seq<string>> {
    if values == [] then Some([])
    else
      match CleanTargets(values[..|values| - 1])
      case None => None
      case Some(cleaned) =>
        var item := Routing.Strip(values[|values| - 1]);
        if item == "" || |item| > 160 then None
        else Some(if item in cleaned then cleaned else cleaned + [item])
  }

  predicate FieldsValid(kind: Kind, rules: Rules, r: Release) {
    && rules.version(r.version) && r.build >= 1 && r.channel in CHANNELS && r.mode in Modes(kind)
    && r.component in Components(kind) && (if kind == Component then rules.slot(r.slot) else r.slot == "")
  }

  function Find(s: State, pk: Option<nat>): Option<Release> {
    if pk.Some? && pk.value < |s.rows| then s.rows[pk.value] else None
  }

  predicate ArtifactChanged(existing: Option<Release>, item: Release, upload: Option<File>) {
    item.artifact != "" && (existing.None? || upload.Some? || item.artifact != existing.value.artifact)
  }

  /** The file a save reads: the upload, or the stored file of that name. */
  function SourceFile(s: State, item: Release, upload: Option<File>): Option<File> {
    if upload.Some? then upload else if item.artifact in s.storage then Some(s.storage[item.artifact]) else None
  }

  /** Derived fields follow the file, or stay as they were; `None` is an error. */
  function Derived(kind: Kind, rules: Rules, s: State, existing: Option<Release>, item: Release, upload: Option<File>): Option<Release> {
    if ArtifactChanged(existing, item, upload) then
      match SourceFile(s, item, upload)
      case None => None
      case Some(f) =>
        if f.size > rules.maxBytes || (kind == Application && !f.executable) then None
        else Some(item.(filename := rules.base(item.artifact), sha256 := f.sha256, size := f.size))
    else if existing.Some? then
      Some(item.(filename := existing.value.filename, sha256 := existing.value.sha256, size := existing.value.size))
    else Some(item)
  }

  /** What a published or revoked release lets a save change. */
  predicate Unfrozen(kind: Kind, existing: Release, r: Release) {
    && Identity(kind, r) == Identity(kind, existing)
    && (kind == Application && existing.status == Revoked ==>
          r.mode == existing.mode && r.offices == existing.offices && r.devices == existing.devices)
    && (existing.status == Published ==> r.status != Draft)
    && (existing.status == Revoked ==> r.status == Revoked)
  }

  predicate HigherBuildOut(s: State, r: Release) {
    exists pk :: 0 <= pk < |s.rows| && s.rows[pk].Some? && SameTrack(s.rows[pk].value, r) &&
                 s.rows[pk].value.build > r.build && s.rows[pk].value.status != Draft
  }

  /** The unique constraint on track and build. */
  predicate BuildTaken(s: State, r: Release, except: Option<nat>) {
    exists pk :: 0 <= pk < |s.rows| && s.rows[pk].Some? && SameTrack(s.rows[pk].value, r) &&
                 s.rows[pk].value.build == r.build && Some(pk) != except
  }

  function Stored(s: State, item: Release, upload: Option<File>): map<string, File> {
    if upload.Some? then s.storage[item.artifact := upload.value] else s.storage
  }

  predicate Intact(storage: map<string, File>, r: Release) {
    r.artifact != "" && r.artifact in storage && storage[r.artifact].sha256 == r.sha256 && storage[r.artifact].size == r.size
  }

  /** The first checks: fields, and how a release may start. */
  predicate Startable(kind: Kind, rules: Rules, existing: Option<Release>, item: Release) {
    && FieldsValid(kind, rules, item)
    && (kind == Application && existing.None? ==> item.status == Draft)
    && (kind == Application && existing.Some? && existing.value.status == Draft ==> item.status != Revoked)
  }

  predicate Publishing(existing: Option<Release>, item: Release) {
    item.status == Published && (existing.None? || existing.value.status != Published)
  }

  predicate MayPublish(kind: Kind, rules: Rules, s: State, existing: Option<Release>, r: Release, storage: map<string, File>) {
    existing.Some? && !HigherBuildOut(s, r) && Intact(storage, r) && Signed(kind, rules, r)
  }

  /** `save` of an edited row (`pk` of an existing row) or of a new one; `None` raises. */
  function Save(kind: Kind, rules: Rules, s: State, pk: Option<nat>, item: Release, upload: Option<File>): Option<State>
    requires pk.Some? ==> Present(s, pk.value)
  {
    var existing := Find(s, pk);
    var offices, devices := CleanTargets(item.offices), CleanTargets(item.devices);
    if !Startable(kind, rules, existing, item) || offices.None? || devices.None? then None
    else
      var cleaned := item.(offices := offices.value, devices := devices.value, signature := Routing.Strip(item.signature));
      match Derived(kind, rules, s, existing, cleaned, upload)
      case None => None
      case Some(r) =>
        if existing.Some? && existing.value.status != Draft && !Unfrozen(kind, existing.value, r) then None
        else if Publishing(existing, r) && !MayPublish(kind, rules, s, existing, r, Stored(s, item, upload)) then None
        else if BuildTaken(s, r, pk) then None
        else Some(State(if pk.Some? then s.rows[pk.value := Some(r)] else s.rows + [Some(r)], Stored(s, item, upload)))
  }

  // ------------------------------------------------------------------ selection

  function Strips(values: seq<string>, fold: string -> string): set<string> {
    set i | 0 <= i < |values| && Routing.Strip(values[i]) != "" :: fold(Routing.Strip(values[i]))
  }

  /** Offices match up to case; a release with offices and devices needs both. */
  predicate Applies(rules: Rules, r: Release, client: Client) {
    var offices, devices := Strips(r.offices, rules.fold), Strips(r.devices, x => x);
    && (offices != {} ==> rules.fold(Routing.Strip(client.office)) in offices)
    && (devices != {} ==> Routing.Strip(client.device) in devices)
  }

  /** The rows a selector's query lists: live on the client's channel and above `floor`. */
  predicate Listed(s: State, client: Client, floor: Option<int>, pk: nat) {
    && Present(s, pk) && s.rows[pk].value.status == Published && s.rows[pk].value.channel == client.channel
    && (floor.Some? ==> s.rows[pk].value.build > floor.value) && s.rows[pk].value.artifact != ""
  }

  /** A listed row that can be handed to the client. */
  predicate Eligible(kind: Kind, rules: Rules, s: State, client: Client, floor: Option<int>, pk: nat) {
    && Listed(s, client, floor, pk) && Applies(rules, s.rows[pk].value, client)
    && s.rows[pk].value.artifact in s.storage && Signed(kind, rules, s.rows[pk].value)
  }

  /** Newest build first, then newest row. */
  predicate Ahead(s: State, a: nat, b: nat)
    requires Present(s, a) && Present(s, b)
  {
    s.rows[a].value.build > s.rows[b].value.build || (s.rows[a].value.build == s.rows[b].value.build && a > b)
  }

  /** Whether a download of `pk` by the client goes through. */
  predicate Downloadable(kind: Kind, rules: Rules, s: State, client: Client, pk: nat) {
    && Present(s, pk) && s.rows[pk].value.status == Published && s.rows[pk].value.channel == client.channel
    && Applies(rules, s.rows[pk].value, client) && Signed(kind, rules, s.rows[pk].value)
    && s.rows[pk].value.artifact != "" && s.rows[pk].value.artifact in s.storage
  }

  function Floor(appBuild: int): Option<int> {
    Some(if appBuild < 0 then 0 else appBuild)
  }

  type Slot = (string, string)

  function SlotOf(r: Release): Slot {
    (r.component, r.slot)
  }
}
