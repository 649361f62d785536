/** The values of the common catalog: which answers are accepted, and where each published
    field comes from. */
module BrowserCatalogMerge {
  import opened Wrappers
  import opened BrowserCatalog
  import opened BrowserCatalogRuns

  // ------------------------------------------------------------------ one answer

  /** An offered value, parsed when it is an embedded text, is the accepted value `d` of a field. */
  predicate Gives(rules: Rules, key: string, offered: Json, d: Json) {
    && (if offered.Text? then rules.loads(offered.text) == Some(d) else offered == d)
    && (if key == "osData" || key == "versionsByMajor" then d.Object? else d.List?)
    && rules.shape(key, d)
  }

  function ReadFields(read: Json): Fields {
    if read.Object? then read.fields else map[]
  }

  /** The part of the fields that the answer offers. */
  function Offered(p: Fields, answer: Fields): Fields {
    map k | k in p && k in answer :: p[k]
  }

  predicate IsEmpty(v: Json) {
    v == Object(map[]) || v == List([])
  }

  /** `p` is what an answer makes of the fields that were read: its own values where it has
      them, the values read where it leaves them out; the four fingerprint fields are its own and
      not empty; what it offers and what results fit into 8 MiB. */
  ghost predicate Yields(rules: Rules, read: Fields, answer: Fields, p: Fields) {
    && (forall k :: k in p <==> IsCommon(k) && (k in answer || k in read))
    && (forall k | k in p :: Gives(rules, k, if k in answer then answer[k] else read[k], p[k]))
    && (forall k | k in ["osData", "winCpuList", "fontList", "winScreen"] :: k in answer && k in p && !IsEmpty(p[k]))
    && rules.size(Offered(p, answer)) <= 8388608 && rules.size(p) <= 8388608
  }

  lemma GivesDecoded(rules: Rules, k: string, offered: Json)
    ensures Fits(rules, k, offered) <==> Decoded(rules, offered).Some? && Gives(rules, k, offered, Decoded(rules, offered).value)
    ensures forall d | Gives(rules, k, offered, d) ::
              Fits(rules, k, offered) && Decoded(rules, offered) == Some(d) && !d.Text? && Fits(rules, k, d) && Decoded(rules, d) == Some(d)
  {
  }

  lemma RequiredNames(p: Fields)
    requires forall k | k in p :: p[k].Object? || p[k].List?
    ensures HasRequired(p) <==> forall k | k in ["osData", "winCpuList", "fontList", "winScreen"] :: k in p && !IsEmpty(p[k])
  {
  }

  /** The fields that a validation keeps, in these terms. */
  ghost predicate Validates(rules: Rules, data: Fields, p: Fields) {
    && (forall k :: k in p <==> IsCommon(k) && k in data)
    && (forall k | k in p :: Gives(rules, k, data[k], p[k]))
    && (forall k | k in ["osData", "winCpuList", "fontList", "winScreen"] :: k in p && !IsEmpty(p[k]))
    && rules.size(p) <= 8388608
  }

  lemma ValidateGives(rules: Rules, data: Fields)
    requires ValidateCommon(rules, data).Some?
    ensures Validates(rules, data, ValidateCommon(rules, data).value)
  {
    var p := ValidateCommon(rules, data).value;
    forall k | k in p ensures Gives(rules, k, data[k], p[k]) {
      GivesDecoded(rules, k, data[k]);
    }
    hide Fits, Decoded, IsCommon;
    RequiredNames(p);
  }

  lemma ValidateTakes(rules: Rules, data: Fields, p: Fields)
    requires Validates(rules, data, p)
    ensures ValidateCommon(rules, data) == Some(p)
  {
    forall k | k in data && IsCommon(k) ensures Fits(rules, k, data[k]) && Decoded(rules, data[k]) == Some(p[k]) {
      GivesDecoded(rules, k, data[k]);
    }
    RequiredNames(p);
    hide Fits, Decoded, IsCommon, HasRequired, Gives, IsEmpty;
    assert p == map k | k in data && IsCommon(k) :: Decoded(rules, data[k]).value;
  }

  /** What the second validation looks at. */
  function MergedFields(read: Json, data: Fields): Fields {
    if read.Object? && read.fields != map[] then Merge(read.fields, data) else data
  }

  lemma MergedKeys(read: Json, data: Fields)
    ensures var merged := MergedFields(read, data);
            && (forall k :: IsCommon(k) && k !in data ==> (k in merged <==> k in ReadFields(read)) && (k in merged ==> merged[k] == ReadFields(read)[k]))
            && (forall k :: k in data ==> k in merged && merged[k] == data[k])
  {
    hide IsCommon;
  }

  lemma PreparedInSteps(rules: Rules, read: Json, answer: Json)
    ensures Prepared(rules, true, read, answer) ==
              if !answer.Object? || ValidateCommon(rules, answer.fields).None? then None
              else
                var merged := ValidateCommon(rules, MergedFields(read, ValidateCommon(rules, answer.fields).value));
                if merged.None? then None else Some(Object(merged.value))
  {
    hide ValidateCommon, Merge;
  }

  lemma PreparedYields(rules: Rules, read: Json, answer: Json)
    requires Prepared(rules, true, read, answer).Some?
    ensures var p := Prepared(rules, true, read, answer).value;
            answer.Object? && p.Object? && Yields(rules, ReadFields(read), answer.fields, p.fields)
  {
    PreparedInSteps(rules, read, answer);
    hide Prepared, ValidateCommon, IsCommon, IsEmpty, MergedFields, ReadFields, Gives;
    var data := ValidateCommon(rules, answer.fields).value;
    var merged := MergedFields(read, data);
    var p := ValidateCommon(rules, merged).value;
    ValidateGives(rules, answer.fields);
    ValidateGives(rules, merged);
    MergedKeys(read, data);
    forall k | k in data ensures p[k] == data[k] {
      GivesTwice(rules, k, answer.fields[k], data[k], p[k]);
    }
    assert Offered(p, answer.fields) == data;
  }

  lemma GivesTwice(rules: Rules, k: string, offered: Json, d: Json, e: Json)
    requires Gives(rules, k, offered, d)
    ensures Gives(rules, k, d, e) <==> e == d
  {
  }

  lemma YieldsPrepared(rules: Rules, read: Json, answer: Json, p: Fields)
    requires answer.Object? && Yields(rules, ReadFields(read), answer.fields, p)
    ensures Prepared(rules, true, read, answer) == Some(Object(p))
  {
    PreparedInSteps(rules, read, answer);
    hide Prepared, ValidateCommon, IsCommon, IsEmpty, MergedFields, ReadFields, Gives;
    var o := Offered(p, answer.fields);
    ValidateTakes(rules, answer.fields, o);
    var merged := MergedFields(read, o);
    MergedKeys(read, o);
    forall k | k in o ensures Gives(rules, k, merged[k], p[k]) {
      GivesTwice(rules, k, answer.fields[k], p[k], p[k]);
    }
    ValidateTakes(rules, merged, p);
  }

  /** When a common fetch has something to publish, and what: exactly the fields its answer
      yields on those that were read. */
  lemma PreparedExactly(rules: Rules, read: Json, answer: Json, d: Json)
    ensures Prepared(rules, true, read, answer) == Some(d) <==>
              d.Object? && answer.Object? && Yields(rules, ReadFields(read), answer.fields, d.fields)
  {
    hide Prepared, Yields;
    if Prepared(rules, true, read, answer) == Some(d) {
      PreparedYields(rules, read, answer);
    } else if d.Object? && answer.Object? && Yields(rules, ReadFields(read), answer.fields, d.fields) {
      YieldsPrepared(rules, read, answer, d.fields);
    }
  }

  // ------------------------------------------------------------------ over runs

  /** No field of the object is an embedded text. */
  predicate Parsed(v: Json) {
    v.Object? && forall k | k in v.fields :: !v.fields[k].Text?
  }

  /** The row, and all that is ready to be published, is parsed. */
  ghost predicate AllParsed(w: World) {
    Parsed(w.row.payload) && forall i | 0 <= i < |w.workers| :: w.workers[i].stage.Ready? ==> Parsed(w.workers[i].stage.data)
  }

  lemma PreparedIsParsed(rules: Rules, read: Json, answer: Json)
    requires Prepared(rules, true, read, answer).Some?
    ensures Parsed(Prepared(rules, true, read, answer).value)
  {
    hide Prepared;
    PreparedYields(rules, read, answer);
  }

  lemma StepStaysParsed(rules: Rules, w: World, op: Op)
    requires AllParsed(w) && Enabled(w, op)
    ensures AllParsed(Step(rules, true, w, op))
  {
    hide Prepared, Parsed;
    if op.Fetch? && op.answer.Some? && Prepared(rules, true, w.workers[op.worker].stage.payload, op.answer.value).Some? {
      PreparedIsParsed(rules, w.workers[op.worker].stage.payload, op.answer.value);
    }
  }

  lemma {:induction false} RunStaysParsed(rules: Rules, w: World, ops: seq<Op>)
    requires AllParsed(w) && Legal(rules, true, w, ops)
    ensures AllParsed(Run(rules, true, w, ops))
    decreases |ops|
  {
    if ops != [] {
      hide AllParsed, Step;
      StepStaysParsed(rules, w, ops[0]);
      RunStaysParsed(rules, Step(rules, true, w, ops[0]), ops[1..]);
    }
  }

  predicate IsSettled(stage: Stage) {
    stage.Ready? || stage.Failing? || stage.Ended?
  }

  /** A worker that has its data keeps it until it ends. */
  lemma {:induction false} SettledStays(rules: Rules, common: bool, w: World, ops: seq<Op>, i: nat)
    requires Legal(rules, common, w, ops) && i < |w.workers| && IsSettled(w.workers[i].stage)
    ensures var v := Run(rules, common, w, ops);
            i < |v.workers| && v.workers[i].token == w.workers[i].token &&
            (v.workers[i].stage == w.workers[i].stage || v.workers[i].stage.Ended?)
    decreases |ops|
  {
    if ops != [] {
      hide Prepared, Publish, Fail, Acquire;
      SettledStays(rules, common, Step(rules, common, w, ops[0]), ops[1..], i);
    }
  }

  /** Any run, a fetch of worker `i`, anything else, and then its publication, which goes through:
      the catalog becomes what the fetched answer yields on the catalog it replaces.  Each field
      the answer offers is the answer's value, and each field it leaves out is kept as it was. */
  lemma PublicationMerges(rules: Rules, before: seq<Op>, i: nat, answer: Json, between: seq<Op>, at: int)
    requires Legal(rules, true, START, before) && Enabled(Run(rules, true, START, before), Fetch(i, Some(answer)))
    requires Legal(rules, true, Step(rules, true, Run(rules, true, START, before), Fetch(i, Some(answer))), between)
    requires var w := Run(rules, true, Step(rules, true, Run(rules, true, START, before), Fetch(i, Some(answer))), between);
             Enabled(w, PublishOp(i, at)) && Owns(w, i)
    ensures var w := Run(rules, true, Step(rules, true, Run(rules, true, START, before), Fetch(i, Some(answer))), between);
            var (was, now) := (w.row.payload, Step(rules, true, w, PublishOp(i, at)).row.payload);
            && answer.Object? && was.Object? && now.Object? && Yields(rules, was.fields, answer.fields, now.fields)
            && (forall k | k in now.fields && k in answer.fields :: Gives(rules, k, answer.fields[k], now.fields[k]))
            && (forall k | k in now.fields && k !in answer.fields :: k in was.fields && now.fields[k] == was.fields[k])
  {
    var w0 := Run(rules, true, START, before);
    var w1 := Step(rules, true, w0, Fetch(i, Some(answer)));
    var w := Run(rules, true, w1, between);
    RunKeeps(rules, true, START, before);
    StepKeeps(rules, true, w0, Fetch(i, Some(answer)));
    RunKeeps(rules, true, w1, between);
    RunStaysParsed(rules, START, before);
    StepStaysParsed(rules, w0, Fetch(i, Some(answer)));
    RunStaysParsed(rules, w1, between);
    hide Prepared, Run, Legal, Publish;
    SettledStays(rules, true, w1, between, i);
    assert WorkerSound(w, true, i);
    PreparedYields(rules, w.row.payload, answer);
  }
}
