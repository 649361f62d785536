/** The fenced browser-catalog sync (control/browser_catalog.py): validation and merge of the
    common catalog, and one snapshot row under a lease. */
module BrowserCatalog {
  import opened Wrappers

  datatype Json =
    | Null
    | Flag(flag: bool)
    | Number(number: real)
    | Text(text: string)
    | List(items: seq<Json>)
    | Object(fields: map<string, Json>)

  type Fields = map<string, Json>

  const COMMON_KEYS: set<string> := {
    "osData", "winCpuList", "fontList", "winScreen", "countries", "browserType",
    "winRamList", "versionsByMajor", "Intel", "AMD", "NVIDIA", "font",
    "voiceList", "extendedVoices", "macVoiceList", "langInfo",
    "mobileDeviceProfiles", "mobileFonts", "mobileGpuRenderers" }
  const OBJECT_KEYS: set<string> := {"osData", "versionsByMajor"}
  const REQUIRED_KEYS: set<string> := {"osData", "winCpuList", "fontList", "winScreen"}
  const MAX_BYTES: nat := 8 * 1024 * 1024
  const LEASE_SECONDS: int := 15 * 60

  /** Parsing of an embedded text, the depth and shape checks of a field, the size of the
      canonical form, and the digest. */
  datatype Rules = Rules(
    loads: string -> Option<Json>,
    shape: (string, Json) -> bool,
    size: Fields -> nat,
    digest: Json -> string)

  // ------------------------------------------------------------------ validation and merge

  predicate IsCommon(k: string) {
    k in COMMON_KEYS
  }

  function Known(data: Fields): set<string> {
    set k | k in data && IsCommon(k)
  }

  function Decoded(rules: Rules, v: Json): Option<Json> {
    if v.Text? then rules.loads(v.text) else Some(v)
  }

  predicate Fits(rules: Rules, key: string, v: Json) {
    match Decoded(rules, v)
    case None => false
    case Some(d) => (if key in OBJECT_KEYS then d.Object? else d.List?) && rules.shape(key, d)
  }

  predicate Falsy(v: Json) {
    match v
    case Object(fields) => fields == map[]
    case List(items) => items == []
    case _ => false
  }

  predicate HasRequired(fields: Fields) {
    forall k :: k in REQUIRED_KEYS ==> k in fields && !Falsy(fields[k])
  }

  /** `validate_common` on an object; `None` is a sync error. */
  function ValidateCommon(rules: Rules, data: Fields): Option<Fields> {
    if exists k :: k in data && IsCommon(k) && !Fits(rules, k, data[k]) then None
    else
      var result := map k | k in data && IsCommon(k) :: Decoded(rules, data[k]).value;
      if !HasRequired(result) || rules.size(result) > MAX_BYTES then None else Some(result)
  }

  /** Known fields of the snapshot survive an update that leaves them out. */
  function Merge(payload: Fields, data: Fields): Fields {
    (map k | k in payload && IsCommon(k) :: payload[k]) + data
  }

  /** What a sync publishes for an upstream answer, from the payload it read. */
  function Prepared(rules: Rules, common: bool, read: Json, answer: Json): Option<Json> {
    if !common then Some(answer)
    else if !answer.Object? then None
    else
      match ValidateCommon(rules, answer.fields)
      case None => None
      case Some(data) =>
        var merged := if read.Object? && read.fields != map[] then Merge(read.fields, data) else data;
        match ValidateCommon(rules, merged)
        case None => None
        case Some(valid) => Some(Object(valid))
  }

  /** The merge filter: every published key was offered or known and is a common key, every
      offered or known common key is published, and all fields fit. */
  lemma PreparedKeys(rules: Rules, read: Json, answer: Json)
    ensures var p := Prepared(rules, true, read, answer);
            p.Some? ==>
              && answer.Object? && p.value.Object?
              && (forall k :: k in p.value.fields <==>
                    IsCommon(k) && (k in answer.fields || (read.Object? && k in read.fields)))
              && HasRequired(p.value.fields)
              && (forall k :: k in p.value.fields && k in answer.fields ==> Fits(rules, k, answer.fields[k]))
  {
  }

  method CheckField(rules: Rules, key: string, offered: Json) returns (value: Option<Json>)
    ensures value == if Fits(rules, key, offered) then Decoded(rules, offered) else None
  {
    var parsed := offered;
    if offered.Text? {
      var loaded := rules.loads(offered.text);
      if loaded.None? {
        return None;
      }
      parsed := loaded.value;
    }
    if !(if key in OBJECT_KEYS then parsed.Object? else parsed.List?) {
      return None;
    }
    if !rules.shape(key, parsed) {
      return None;
    }
    value := Some(parsed);
  }

  /** The loop of `validate_common` over the known keys of the answer, in any order. */
  method CheckCommon(rules: Rules, data: Fields) returns (result: Option<Fields>)
    ensures result == ValidateCommon(rules, data)
  {
    hide Fits, Decoded, IsCommon, HasRequired;
    var known := Known(data);
    var keys := known;
    var fields: Fields := map[];
    while keys != {}
      invariant keys <= known && fields.Keys == known - keys
      invariant forall k :: k in fields ==> k in data && Fits(rules, k, data[k]) && Some(fields[k]) == Decoded(rules, data[k])
      decreases |keys|
    {
      var key :| key in keys;
      assert key in known;
      var value := CheckField(rules, key, data[key]);
      if value.None? {
        FitsDecodes(rules, key, data[key]);
        return None;
      }
      fields := fields[key := value.value];
      keys := keys - {key};
    }
    assert fields.Keys == known;
    assert fields == map k | k in data && IsCommon(k) :: Decoded(rules, data[k]).value;
    if !HasRequired(fields) {
      return None;
    }
    if rules.size(fields) > MAX_BYTES {
      return None;
    }
    result := Some(fields);
  }

  lemma FitsDecodes(rules: Rules, key: string, v: Json)
    ensures Fits(rules, key, v) ==> Decoded(rules, v).Some?
  {
  }

  // ------------------------------------------------------------------ the snapshot row

  datatype Snapshot = Snapshot(
    payload: Json,
    revision: string,
    leaseToken: string,
    leaseUntil: Option<int>,
    lastAttemptAt: Option<int>,
    lastSuccessAt: Option<int>,
    dataUpdatedAt: Option<int>,
    lastError: string)

  const NEW_SNAPSHOT := Snapshot(Object(map[]), "", "", None, None, None, None, "")

  predicate Acquirable(row: Snapshot, now: int) {
    row.leaseUntil.None? || row.leaseUntil.value < now
  }

  function Acquire(row: Snapshot, token: string, now: int): Snapshot {
    if Acquirable(row, now)
    then row.(leaseToken := token, leaseUntil := Some(now + LEASE_SECONDS), lastAttemptAt := Some(now))
    else row
  }

  /** The guarded update of a publication; `readRevision` is the revision read under the lease. */
  function Publish(rules: Rules, row: Snapshot, token: string, readRevision: string, data: Json, now: int): Snapshot {
    if row.leaseToken != token then row
    else
      Snapshot(data, rules.digest(data), "", None, row.lastAttemptAt, Some(now),
               if rules.digest(data) != readRevision then Some(now) else row.dataUpdatedAt, "")
  }

  function Fail(row: Snapshot, token: string, error: string): Snapshot {
    if row.leaseToken != token then row else row.(lastError := error, leaseToken := "", leaseUntil := None)
  }

  /** What happens between two statements of one sync: fetching takes long, and other workers
      may use the row meanwhile. */
  datatype Result = Busy | LeaseLost | Updated | Unchanged | Failed

  /** The statements of `sync_resource`, each on the row as it is then. */
  class SnapshotDesk {
    var row: Snapshot

    constructor ()
      ensures row == NEW_SNAPSHOT
    {
      row := NEW_SNAPSHOT;
    }

    method AcquireLease(token: string, now: int) returns (acquired: bool)
      modifies this
      ensures acquired <==> old(row).leaseUntil.None? || old(row).leaseUntil.value < now
      ensures row == if acquired then old(row).(leaseToken := token, leaseUntil := Some(now + 900), lastAttemptAt := Some(now)) else old(row)
      ensures acquired == Acquirable(old(row), now) && row == Acquire(old(row), token, now)
    {
      acquired := row.leaseUntil.None? || row.leaseUntil.value < now;
      if acquired {
        row := row.(leaseToken := token);
        row := row.(leaseUntil := Some(now + LEASE_SECONDS));
        row := row.(lastAttemptAt := Some(now));
      }
    }

    method PublishOwned(rules: Rules, token: string, readRevision: string, data: Json, now: int) returns (result: Result)
      modifies this
      ensures old(row).leaseToken != token ==> row == old(row)
      ensures old(row).leaseToken == token ==>
                && row.payload == data && row.revision == rules.digest(data) && row.leaseToken == "" && row.leaseUntil == None
                && row.lastError == "" && row.lastSuccessAt == Some(now) && row.lastAttemptAt == old(row).lastAttemptAt
                && row.dataUpdatedAt == if rules.digest(data) != readRevision then Some(now) else old(row).dataUpdatedAt
      ensures row == Publish(rules, old(row), token, readRevision, data, now)
      ensures result == if old(row).leaseToken != token then LeaseLost
                        else if rules.digest(data) != readRevision then Updated else Unchanged
    {
      var revision := rules.digest(data);
      if row.leaseToken != token {
        return LeaseLost;
      }
      var changed := revision != readRevision;
      row := row.(payload := data, revision := revision, lastSuccessAt := Some(now), lastError := "");
      row := row.(leaseToken := "", leaseUntil := None);
      if changed {
        row := row.(dataUpdatedAt := Some(now));
      }
      result := if changed then Updated else Unchanged;
    }

    method FailOwned(token: string, error: string)
      modifies this
      ensures row == if old(row).leaseToken == token then old(row).(lastError := error, leaseToken := "", leaseUntil := None) else old(row)
      ensures row == Fail(old(row), token, error)
    {
      if row.leaseToken == token {
        row := row.(lastError := error, leaseToken := "", leaseUntil := None);
      }
    }
  }
}
