/** What the release lifecycle guarantees to the update selectors. */
module ReleaseTheorems {
  import opened Wrappers
  import opened Releases
  import opened ReleaseRuns
  import opened ReleaseSaves
  import Routing = P3Routing

  lemma KeptTransitive(kind: Kind, r: State, s: State, t: State, pk: nat)
    requires Present(r, pk) && Kept(kind, r, s, pk) && Kept(kind, s, t, pk)
    ensures Kept(kind, r, t, pk)
  {
  }

  lemma StepKeepsOut(kind: Kind, rules: Rules, w: World, op: Op, pk: nat)
    requires Enabled(w, op) && Out(w.s, pk)
    ensures Kept(kind, w.s, Step(kind, rules, w, op).s, pk)
    ensures w.published <= Step(kind, rules, w, op).published
  {
    hide Save, PanelPublished, PanelRevoked;
    match op
    case SaveOp(at, item, upload) => SaveKeepsOut(kind, rules, w.s, at, item, upload, pk);
    case PublishOp(at, channel, audience, now) =>
      var item := PanelPublished(w.s.rows[at].value, channel, audience, now);
      if item.Some? {
        SaveKeepsOut(kind, rules, w.s, Some(at), item.value, None, pk);
      }
    case RevokeOp(at) =>
      if PanelRevoked(w.s.rows[at].value).Some? {
        SaveKeepsOut(kind, rules, w.s, Some(at), PanelRevoked(w.s.rows[at].value).value, None, pk);
      }
    case DeleteDraftOp(at) =>
    case FilesOp(storage) =>
  }

  /** Once a release is out, no run of steps changes its identity, deletes it, turns it back
      into a draft or revives it after a revocation. */
  lemma {:induction false} OutIsFrozen(kind: Kind, rules: Rules, w: World, ops: seq<Op>, pk: nat)
    requires Legal(kind, rules, w, ops) && Out(w.s, pk)
    ensures Kept(kind, w.s, Run(kind, rules, w, ops).s, pk)
    ensures w.published <= Run(kind, rules, w, ops).published
    decreases |ops|
  {
    if ops != [] {
      var v := Step(kind, rules, w, ops[0]);
      StepKeepsOut(kind, rules, w, ops[0], pk);
      hide Step;
      OutIsFrozen(kind, rules, v, ops[1..], pk);
      KeptTransitive(kind, w.s, v.s, Run(kind, rules, w, ops).s, pk);
    }
  }

  /** In every track the builds went out in increasing order, and what is out is what was
      published. */
  lemma PublicationOrderIsBuildOrder(kind: Kind, rules: Rules, ops: seq<Op>)
    requires Legal(kind, rules, START, ops)
    ensures var w := Run(kind, rules, START, ops);
            && (forall i, j | 0 <= i < j < |w.published| ::
                  Present(w.s, w.published[i]) && Present(w.s, w.published[j]) && InOrder(w.s, w.published[i], w.published[j]))
            && (forall pk: nat :: Out(w.s, pk) <==> pk in w.published)
  {
    RunKeeps(kind, rules, START, ops);
    var w := Run(kind, rules, START, ops);
    assert forall i | 0 <= i < |w.published| :: Out(w.s, w.published[i]);
  }

  /** Releases that one selector chooses between: all of the client's channel for applications,
      those of one component and slot for components. */
  predicate Rivals(kind: Kind, a: Release, b: Release) {
    kind == Application || SlotOf(a) == SlotOf(b)
  }

  /** The choice of the selectors: eligible, and ahead of every eligible rival. */
  ghost predicate IsChoice(kind: Kind, rules: Rules, s: State, client: Client, floor: Option<int>, pk: nat) {
    && Eligible(kind, rules, s, client, floor, pk)
    && forall q: nat | q != pk && Eligible(kind, rules, s, client, floor, q) ::
         Rivals(kind, s.rows[pk].value, s.rows[q].value) ==> Ahead(s, pk, q)
  }

  /** `at` is where `pk` went out first, and no eligible rival went out later. */
  ghost predicate LatestAt(kind: Kind, rules: Rules, w: World, client: Client, floor: Option<int>, pk: nat, at: nat) {
    && at < |w.published| && w.published[at] == pk && Present(w.s, pk)
    && forall j | at < j < |w.published| ::
         Eligible(kind, rules, w.s, client, floor, w.published[j]) ==> !Rivals(kind, w.s.rows[pk].value, w.s.rows[w.published[j]].value)
  }

  /** After any run, what a selector chooses is the eligible release that was first published
      most recently, and the client can download it in that state. */
  lemma ChoiceIsLatestPublished(kind: Kind, rules: Rules, ops: seq<Op>, client: Client, floor: Option<int>, pk: nat)
    requires Legal(kind, rules, START, ops)
    ensures var w := Run(kind, rules, START, ops);
            IsChoice(kind, rules, w.s, client, floor, pk) ==>
              (exists at: nat :: LatestAt(kind, rules, w, client, floor, pk, at)) && Downloadable(kind, rules, w.s, client, pk)
  {
    RunKeeps(kind, rules, START, ops);
    var w := Run(kind, rules, START, ops);
    if IsChoice(kind, rules, w.s, client, floor, pk) {
      assert Out(w.s, pk);
      var at :| 0 <= at < |w.published| && w.published[at] == pk;
      forall j | at < j < |w.published| && Eligible(kind, rules, w.s, client, floor, w.published[j])
        ensures !Rivals(kind, w.s.rows[pk].value, w.s.rows[w.published[j]].value)
      {
        var q := w.published[j];
        assert InOrder(w.s, w.published[at], w.published[j]);
        assert RowSound(kind, w.s.rows[pk].value) && RowSound(kind, w.s.rows[q].value);
      }
      assert LatestAt(kind, rules, w, client, floor, pk, at);
    }
  }

  /** A save of a row with one office stores that office, stripped. */
  lemma OneOfficeSaved(kind: Kind, rules: Rules, s: State, pk: nat, item: Release, name: string)
    requires Present(s, pk) && item.offices == [name] && item.devices == []
    ensures var t := Save(kind, rules, s, Some(pk), item, None);
            t.Some? ==>
              && Present(t.value, pk) && t.value.rows[pk].value.offices == [Routing.Strip(name)] && Routing.Strip(name) != ""
              && t.value.rows[pk].value.devices == [] && t.value.rows[pk].value.status == item.status
  {
    var none: seq<string> := [];
    assert [name][..0] == none && CleanTargets(none) == Some(none) && none + [Routing.Strip(name)] == [Routing.Strip(name)];
    assert CleanTargets([name]) == (if Routing.Strip(name) == "" || |Routing.Strip(name)| > 160 then None else Some([Routing.Strip(name)]));
    hide CleanTargets, Routing.Strip, Startable, Unfrozen, Publishing, MayPublish, BuildTaken, ArtifactChanged, SourceFile, Stored;
  }

  lemma OneOfficeApplies(rules: Rules, r: Release, name: string, client: Client)
    requires r.offices == [name] && r.devices == [] && name != "" && Routing.Strip(name) == name
    ensures Applies(rules, r, client) <==> rules.fold(Routing.Strip(client.office)) == rules.fold(name)
  {
    hide Routing.Strip;
    assert Strips([name], rules.fold) == {rules.fold(name)} by {
      assert [name][0] == name;
    }
    assert Strips(r.devices, x => x) == {};
  }

  /** A rollout without targets reaches every client.  Adding a first office through the panel
      narrows it: once the row is saved, it reaches exactly the clients of that office, and no
      selector offers it to anybody else; a save that is refused changes nothing. */
  lemma FirstTargetNarrows(kind: Kind, rules: Rules, w: World, pk: nat, name: string, now: int, client: Client)
    requires Present(w.s, pk) && w.s.rows[pk].value.status == Published
    requires w.s.rows[pk].value.offices == [] && w.s.rows[pk].value.devices == []
    ensures Applies(rules, w.s.rows[pk].value, client)
    ensures var v := Step(kind, rules, w, PublishOp(pk, w.s.rows[pk].value.channel, Office(name), now));
            v == w ||
            (&& Present(v.s, pk) && v.s.rows[pk].value.status == Published && v.s.rows[pk].value.offices == [Routing.Strip(name)]
             && (Applies(rules, v.s.rows[pk].value, client) <==>
                   rules.fold(Routing.Strip(client.office)) == rules.fold(Routing.Strip(name)))
             && (rules.fold(Routing.Strip(client.office)) != rules.fold(Routing.Strip(name)) ==>
                   forall floor :: !Eligible(kind, rules, v.s, client, floor, pk)))
  {
    var r := w.s.rows[pk].value;
    assert Applies(rules, r, client);
    var item := PanelPublished(r, r.channel, Office(name), now);
    if item.Some? {
      StripTwice(name);
      hide Save, Applies, Routing.Strip;
      OneOfficeSaved(kind, rules, w.s, pk, item.value, name);
      var t := Save(kind, rules, w.s, Some(pk), item.value, None);
      if t.Some? {
        OneOfficeApplies(rules, t.value.rows[pk].value, Routing.Strip(name), client);
      }
    }
  }
}
