/** Which clients a release reaches, and what the update selectors hand to them. */
module ReleaseReach {
  import opened Wrappers
  import opened Releases
  import opened ReleaseRuns
  import opened ReleaseSaves
  import opened ReleasePanel
  import opened ReleaseTheorems
  import opened Trimming
  import Routing = P3Routing

  // ------------------------------------------------------------------ the audience

  /** Every entry is blank, or some entry that is not matches the client's value once both are
      stripped and folded. */
  ghost predicate Names(targets: seq<string>, fold: string -> string, value: string) {
    || (forall i | 0 <= i < |targets| :: IsBlank(targets[i]))
    || exists i :: 0 <= i < |targets| && !IsBlank(targets[i]) && fold(Routing.Strip(targets[i])) == fold(Routing.Strip(value))
  }

  lemma NamesExactly(targets: seq<string>, fold: string -> string, value: string)
    ensures Names(targets, fold, value) <==> (Strips(targets, fold) != {} ==> fold(Routing.Strip(value)) in Strips(targets, fold))
  {
    forall i | 0 <= i < |targets| ensures Routing.Strip(targets[i]) == "" <==> IsBlank(targets[i]) {
      StripTrims(targets[i]);
    }
    hide Routing.Strip, IsBlank, IsTrimmed;
    if i :| 0 <= i < |targets| && !IsBlank(targets[i]) {
      assert fold(Routing.Strip(targets[i])) in Strips(targets, fold);
    } else {
      assert Strips(targets, fold) == {};
    }
  }

  /** A release reaches a client exactly when its offices are all blank or name the client's
      office up to case, and its devices are all blank or name the client's device. */
  lemma AppliesExactly(rules: Rules, r: Release, client: Client)
    ensures Applies(rules, r, client) <==> Names(r.offices, rules.fold, client.office) && Names(r.devices, x => x, client.device)
  {
    NamesExactly(r.offices, rules.fold, client.office);
    NamesExactly(r.devices, x => x, client.device);
    hide Names, Strips, Routing.Strip;
  }

  // ------------------------------------------------------------------ what is selected

  /** The row can be handed to the client: live, on its channel, for its office and its device,
      with its file in the storage and a signature that verifies. */
  ghost predicate CanServe(kind: Kind, rules: Rules, s: State, client: Client, pk: nat) {
    && pk < |s.rows| && s.rows[pk].Some?
    && var r := s.rows[pk].value;
       && r.status == Published && r.channel == client.channel
       && Names(r.offices, rules.fold, client.office) && Names(r.devices, x => x, client.device)
       && r.artifact != "" && r.artifact in s.storage && r.signature != ""
       && rules.signed(r.(status := Draft, publishedAt := None, offices := [], devices := [], mode := if kind == Application then "" else r.mode))
  }

  lemma EligibleExactly(kind: Kind, rules: Rules, s: State, client: Client, floor: Option<int>, pk: nat)
    ensures Eligible(kind, rules, s, client, floor, pk) <==>
              CanServe(kind, rules, s, client, pk) && (floor.Some? ==> s.rows[pk].value.build > floor.value)
    ensures Downloadable(kind, rules, s, client, pk) <==> CanServe(kind, rules, s, client, pk)
  {
    if Present(s, pk) {
      AppliesExactly(rules, s.rows[pk].value, client);
    }
    hide Applies, Names;
  }

  /** After any run, the application release chosen for a client is the one with the highest
      build of those it can be handed that are newer than what it has. */
  lemma DesktopChoice(rules: Rules, ops: seq<Op>, client: Client, appBuild: int, pk: nat)
    requires Legal(Application, rules, START, ops)
    ensures var s := Run(Application, rules, START, ops).s;
            IsChoice(Application, rules, s, client, Floor(appBuild), pk) <==>
              && CanServe(Application, rules, s, client, pk) && appBuild < s.rows[pk].value.build
              && forall q: nat | CanServe(Application, rules, s, client, q) && q != pk :: s.rows[q].value.build < s.rows[pk].value.build
  {
    RunKeeps(Application, rules, START, ops);
    RunStaysValid(Application, rules, START, ops);
    var s := Run(Application, rules, START, ops).s;
    forall q: nat
      ensures Eligible(Application, rules, s, client, Floor(appBuild), q) <==>
                CanServe(Application, rules, s, client, q) && appBuild < s.rows[q].value.build
    {
      EligibleExactly(Application, rules, s, client, Floor(appBuild), q);
      assert Present(s, q) ==> RowValid(Application, rules, s.rows[q].value);
    }
    if CanServe(Application, rules, s, client, pk) {
      forall q: nat | CanServe(Application, rules, s, client, q) && q != pk ensures s.rows[q].value.build != s.rows[pk].value.build {
        BuildsDiffer(Application, rules, s, client, pk, q);
      }
    }
    hide Run, Legal, Eligible, CanServe, PublishedSound, AllValid, RowsSound, Floor;
  }

  lemma BuildsDiffer(kind: Kind, rules: Rules, s: State, client: Client, p: nat, q: nat)
    requires RowsSound(kind, s) && CanServe(kind, rules, s, client, p) && CanServe(kind, rules, s, client, q) && p != q
    requires Rivals(kind, s.rows[p].value, s.rows[q].value)
    ensures s.rows[p].value.build != s.rows[q].value.build
  {
    assert Present(s, p) && Present(s, q);
    assert RowSound(kind, s.rows[p].value) && RowSound(kind, s.rows[q].value);
    hide Names;
    var a, b := if p < q then p else q, if p < q then q else p;
    assert a < b && Present(s, a) && Present(s, b) && SameTrack(s.rows[a].value, s.rows[b].value);
  }

  /** After any run, the package chosen for a component and slot is the one with the highest
      build of those that the client can be handed. */
  lemma ComponentChoice(rules: Rules, ops: seq<Op>, client: Client, pk: nat)
    requires Legal(Component, rules, START, ops)
    ensures var s := Run(Component, rules, START, ops).s;
            IsChoice(Component, rules, s, client, None, pk) <==>
              && CanServe(Component, rules, s, client, pk)
              && forall q: nat | CanServe(Component, rules, s, client, q) && q != pk ::
                   s.rows[q].value.component == s.rows[pk].value.component && s.rows[q].value.slot == s.rows[pk].value.slot ==>
                     s.rows[q].value.build < s.rows[pk].value.build
  {
    RunKeeps(Component, rules, START, ops);
    var s := Run(Component, rules, START, ops).s;
    forall q: nat ensures Eligible(Component, rules, s, client, None, q) <==> CanServe(Component, rules, s, client, q) {
      EligibleExactly(Component, rules, s, client, None, q);
    }
    if CanServe(Component, rules, s, client, pk) {
      forall q: nat | CanServe(Component, rules, s, client, q) && q != pk && Rivals(Component, s.rows[pk].value, s.rows[q].value)
        ensures s.rows[q].value.build != s.rows[pk].value.build
      {
        BuildsDiffer(Component, rules, s, client, pk, q);
      }
    }
    hide Run, Legal, Eligible, CanServe, PublishedSound, RowsSound;
  }

  /** A release that names devices is never chosen for another one. */
  lemma ChosenNamesTheDevice(kind: Kind, rules: Rules, s: State, client: Client, floor: Option<int>, pk: nat)
    requires IsChoice(kind, rules, s, client, floor, pk) && exists d :: d in s.rows[pk].value.devices && !IsBlank(d)
    ensures exists d :: d in s.rows[pk].value.devices && Routing.Strip(d) == Routing.Strip(client.device)
  {
    EligibleExactly(kind, rules, s, client, floor, pk);
  }

  // ------------------------------------------------------------------ what the panel changes

  lemma CleanNames(c: seq<string>, fold: string -> string, value: string)
    requires IsClean(c)
    ensures Names(c, fold, value) <==> c == [] || exists i :: 0 <= i < |c| && fold(c[i]) == fold(Routing.Strip(value))
  {
    forall i | 0 <= i < |c| ensures Routing.Strip(c[i]) == c[i] && !IsBlank(c[i]) {
      StripTrims(c[i]);
    }
    hide Routing.Strip, IsBlank, IsClean;
    if i :| 0 <= i < |c| && fold(c[i]) == fold(Routing.Strip(value)) {
      assert !IsBlank(c[i]) && fold(Routing.Strip(c[i])) == fold(Routing.Strip(value));
    }
    assert c != [] ==> !IsBlank(c[0]);
  }

  lemma WidenedNames(c: seq<string>, v: string, fold: string -> string, value: string)
    requires IsClean(c) && GoodTarget(v)
    ensures Names(Widened(c, v), fold, value) <==>
              (c != [] && Names(c, fold, value)) || fold(Routing.Strip(value)) == fold(Routing.Strip(v))
  {
    CleanWidens(c, v);
    CleanNames(c, fold, value);
    CleanNames(Widened(c, v), fold, value);
    hide Routing.Strip, IsClean, Names, GoodTarget;
    var d := Widened(c, v);
    if Routing.Strip(v) in c {
      var j :| 0 <= j < |c| && c[j] == Routing.Strip(v);
    } else {
      assert d[|c|] == Routing.Strip(v);
      assert forall i | 0 <= i < |c| :: d[i] == c[i];
    }
  }

  /** After any run, a publish by the panel that is accepted reaches: with everyone, every client;
      with an office, the clients of that office and those of the offices that a live release
      had, as far as its devices allow; with a device, that device and those it had, as far as
      its offices allow.  A draft starts without targets. */
  lemma PublishReaches(kind: Kind, rules: Rules, ops: seq<Op>, pk: nat, channel: string, audience: Audience,
                       now: int, client: Client)
    requires Legal(kind, rules, START, ops) && Present(Run(kind, rules, START, ops).s, pk)
    requires PanelAccepts(kind, rules, Run(kind, rules, START, ops).s, pk, channel, audience)
    ensures var w := Run(kind, rules, START, ops);
            var r, t := w.s.rows[pk].value, Step(kind, rules, w, PublishOp(pk, channel, audience, now)).s;
            var live := r.status == Published;
            && Present(t, pk)
            && (Applies(rules, t.rows[pk].value, client) <==>
                  match audience
                  case Everyone => true
                  case Office(name) =>
                    && (live ==> Names(r.devices, x => x, client.device))
                    && ((live && r.offices != [] && Names(r.offices, rules.fold, client.office))
                        || rules.fold(Routing.Strip(client.office)) == rules.fold(Routing.Strip(name)))
                  case Device(id) =>
                    && (live ==> Names(r.offices, rules.fold, client.office))
                    && ((live && r.devices != [] && Names(r.devices, x => x, client.device))
                        || Routing.Strip(client.device) == Routing.Strip(id)))
  {
    PanelPublishesExactly(kind, rules, ops, pk, channel, audience, now);
    RunStaysValid(kind, rules, START, ops);
    var w := Run(kind, rules, START, ops);
    var r := w.s.rows[pk].value;
    assert RowValid(kind, rules, r);
    var row := PublishedRow(r, channel, audience, now);
    AppliesExactly(rules, row, client);
    var offices, devices: seq<string> := if r.status == Published then r.offices else [], if r.status == Published then r.devices else [];
    match audience
    case Everyone =>
    case Office(name) => WidenedNames(offices, name, rules.fold, client.office);
    case Device(id) => WidenedNames(devices, id, x => x, client.device);
  }

  /** The device counterpart of `FirstTargetNarrows`: a live release without targets, once a first
      device is added, reaches exactly that device and is offered to nobody else. */
  lemma FirstDeviceNarrows(kind: Kind, rules: Rules, ops: seq<Op>, pk: nat, id: string, now: int, client: Client,
                           floor: Option<int>)
    requires Legal(kind, rules, START, ops)
    requires var s := Run(kind, rules, START, ops).s;
             && Present(s, pk) && s.rows[pk].value.status == Published && GoodTarget(id)
             && s.rows[pk].value.offices == [] && s.rows[pk].value.devices == []
    ensures var w := Run(kind, rules, START, ops);
            var t := Step(kind, rules, w, PublishOp(pk, w.s.rows[pk].value.channel, Device(id), now)).s;
            && Applies(rules, w.s.rows[pk].value, client)
            && Present(t, pk) && (Applies(rules, t.rows[pk].value, client) <==> Routing.Strip(client.device) == Routing.Strip(id))
            && (Routing.Strip(client.device) != Routing.Strip(id) ==> !Eligible(kind, rules, t, client, floor, pk))
  {
    var w := Run(kind, rules, START, ops);
    AppliesExactly(rules, w.s.rows[pk].value, client);
    PublishReaches(kind, rules, ops, pk, w.s.rows[pk].value.channel, Device(id), now, client);
  }
}
