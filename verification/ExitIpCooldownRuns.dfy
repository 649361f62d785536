/** Runs of claims and policy changes, and what they keep. */
module ExitIpCooldownRuns {
  import opened Wrappers
  import opened ExitIpCooldown

  // ------------------------------------------------------------------ single requests

  /** The pre-check says duplicate exactly when the claim would be refused. */
  lemma CheckPredictsClaim(r: Registry, c: Claim, seconds: nat)
    requires GoodScore(c.fraudScore)
    ensures CheckIp(r, c.exitIp, c.reservation, c.applyGlobalPolicy, c.now) <==> ClaimIp(r, c, seconds).1 == Refused
  {
  }

  predicate SameWindow(a: Cooldown, b: Cooldown) {
    && b.claimedAt == a.claimedAt && b.availableAfter == a.availableAfter
    && b.client == a.client && b.job == a.job && b.reservation == a.reservation && b.provider == a.provider
  }

  /** Refusals and replays never move the window or its owner; no claim touches the row of
      another address or removes one. */
  lemma OnlyFreshClaimsMoveTheWindow(r: Registry, c: Claim, seconds: nat, ip: Address)
    requires ip in r.rows
    ensures var (s, outcome) := ClaimIp(r, c, seconds);
            && ip in s.rows && s.policy == r.policy
            && (ip != Normalize(c.exitIp) ==> s.rows[ip] == r.rows[ip])
            && (outcome != Fresh ==> SameWindow(r.rows[ip], s.rows[ip]))
  {
  }

  // ------------------------------------------------------------------ runs

  datatype Op =
    | ClaimOp(claim: Claim)
    | PolicyOp(enabled: bool, actor: string, expected: Option<nat>, at: int)

  datatype Event = Event(claim: Claim, outcome: Outcome, enforced: bool)

  datatype World = World(registry: Registry, history: seq<Event>, clock: int)

  function Time(op: Op): int {
    if op.ClaimOp? then op.claim.now else op.at
  }

  function Step(w: World, op: Op, seconds: nat): World {
    match op
    case ClaimOp(c) =>
      var (r, outcome) := ClaimIp(w.registry, c, seconds);
      World(r, w.history + [Event(c, outcome, Enforced(w.registry, c.applyGlobalPolicy))], c.now)
    case PolicyOp(enabled, actor, expected, at) =>
      var p := SetPolicy(w.registry.policy, enabled, actor, expected, at);
      World(if p.Some? then w.registry.(policy := p) else w.registry, w.history, at)
  }

  /** The clock never runs backwards. */
  predicate Legal(w: World, ops: seq<Op>, seconds: nat)
    decreases |ops|
  {
    ops == [] || (w.clock <= Time(ops[0]) && Legal(Step(w, ops[0], seconds), ops[1..], seconds))
  }

  function Run(w: World, ops: seq<Op>, seconds: nat): World
    decreases |ops|
  {
    if ops == [] then w else Run(Step(w, ops[0], seconds), ops[1..], seconds)
  }

  function Start(policy: Option<Policy>, clock: int): World {
    World(Registry(map[], policy, map[]), [], clock)
  }

  function Ip(e: Event): Address {
    Normalize(e.claim.exitIp)
  }

  function Refusals(history: seq<Event>, ip: Address): nat {
    if history == [] then 0
    else
      var e := history[|history| - 1];
      Refusals(history[..|history| - 1], ip) + (if Ip(e) == ip && e.outcome == Refused then 1 else 0)
  }

  /** Event `k` is the fresh grant a row stands for: the last one of its address. */
  predicate Stands(history: seq<Event>, ip: Address, row: Cooldown, k: nat) {
    && k < |history| && history[k].outcome == Fresh && Ip(history[k]) == ip
    && row.claimedAt == history[k].claim.now && row.client == history[k].claim.client
    && row.reservation == Pk(history[k].claim.reservation)
    && forall j | k < j < |history| :: Ip(history[j]) == ip ==> history[j].outcome != Fresh
  }

  ghost predicate RowSound(w: World, ip: Address, seconds: nat)
    requires ip in w.registry.rows
  {
    && w.registry.rows[ip].availableAfter == w.registry.rows[ip].claimedAt + seconds
    && w.registry.rows[ip].duplicateAttempts == Refusals(w.history, ip)
    && exists k: nat :: Stands(w.history, ip, w.registry.rows[ip], k)
  }

  ghost predicate Inv(w: World, seconds: nat)
  {
    && (forall i | 0 <= i < |w.history| :: w.history[i].claim.now <= w.clock)
    && (forall i, j | 0 <= i < j < |w.history| :: w.history[i].claim.now <= w.history[j].claim.now)
    && (forall i | 0 <= i < |w.history| :: w.history[i].outcome != BadScore ==> Ip(w.history[i]) in w.registry.rows)
    && (forall ip | ip in w.registry.rows :: RowSound(w, ip, seconds))
    && (forall ip | ip !in w.registry.rows :: Refusals(w.history, ip) == 0)
    && Spaced(w.history, seconds)
  }

  /** Enforced fresh grants come a full cooldown after every earlier fresh grant. */
  ghost predicate Spaced(history: seq<Event>, seconds: nat) {
    forall i, j | 0 <= i < j < |history| ::
      SpacedPair(history[i], history[j], seconds)
  }

  predicate SpacedPair(a: Event, b: Event, seconds: nat) {
    a.outcome == Fresh && b.outcome == Fresh && b.enforced && Ip(a) == Ip(b) ==> b.claim.now >= a.claim.now + seconds
  }

  /** A fresh grant makes its event the one the row stands for. */
  lemma GrantStands(w: World, c: Claim, seconds: nat)
    requires ClaimIp(w.registry, c, seconds).1 == Fresh
    requires var ip := Normalize(c.exitIp);
             if ip in w.registry.rows then w.registry.rows[ip].duplicateAttempts == Refusals(w.history, ip) else Refusals(w.history, ip) == 0
    ensures RowSound(Step(w, ClaimOp(c), seconds), Normalize(c.exitIp), seconds)
  {
    var v, n := Step(w, ClaimOp(c), seconds), |w.history|;
    assert v.history[..n] == w.history;
    assert Stands(v.history, Normalize(c.exitIp), v.registry.rows[Normalize(c.exitIp)], n);
  }

  /** Any other claim leaves the grant a row stands for. */
  lemma OtherClaimsStand(w: World, c: Claim, seconds: nat, ip: Address)
    requires ip in w.registry.rows && RowSound(w, ip, seconds)
    requires ClaimIp(w.registry, c, seconds).1 != Fresh || ip != Normalize(c.exitIp)
    ensures ip in Step(w, ClaimOp(c), seconds).registry.rows && RowSound(Step(w, ClaimOp(c), seconds), ip, seconds)
  {
    var v, n := Step(w, ClaimOp(c), seconds), |w.history|;
    assert v.history[..n] == w.history;
    OnlyFreshClaimsMoveTheWindow(w.registry, c, seconds, ip);
    var k: nat :| Stands(w.history, ip, w.registry.rows[ip], k);
    assert Stands(v.history, ip, v.registry.rows[ip], k);
  }

  lemma ClaimKeepsRow(w: World, c: Claim, seconds: nat, ip: Address)
    requires Inv(w, seconds) && w.clock <= c.now && ip in Step(w, ClaimOp(c), seconds).registry.rows
    ensures RowSound(Step(w, ClaimOp(c), seconds), ip, seconds)
  {
    assert ip in w.registry.rows ==> RowSound(w, ip, seconds);
    assert ip !in w.registry.rows ==> Refusals(w.history, ip) == 0;
    hide Inv;
    if ClaimIp(w.registry, c, seconds).1 == Fresh && Normalize(c.exitIp) == ip {
      GrantStands(w, c, seconds);
    } else {
      OtherClaimsStand(w, c, seconds, ip);
    }
  }

  /** The new event is spaced from every earlier one. */
  lemma ClaimIsSpaced(w: World, c: Claim, seconds: nat, i: nat)
    requires Inv(w, seconds) && w.clock <= c.now && i < |w.history|
    ensures SpacedPair(w.history[i], Event(c, ClaimIp(w.registry, c, seconds).1, Enforced(w.registry, c.applyGlobalPolicy)), seconds)
  {
    var ip := Normalize(c.exitIp);
    if w.history[i].outcome == Fresh && Ip(w.history[i]) == ip {
      assert ip in w.registry.rows && RowSound(w, ip, seconds);
      var k: nat :| Stands(w.history, ip, w.registry.rows[ip], k);
      assert i <= k;
    }
  }

  lemma PolicyKeeps(w: World, op: Op, seconds: nat)
    requires Inv(w, seconds) && w.clock <= Time(op) && op.PolicyOp?
    ensures Inv(Step(w, op, seconds), seconds)
  {
    var v := Step(w, op, seconds);
    assert v.history == w.history && v.registry.rows == w.registry.rows;
    forall ip | ip in v.registry.rows ensures RowSound(v, ip, seconds) {
      assert RowSound(w, ip, seconds);
    }
    hide RowSound, SetPolicy, Step, Refusals;
  }

  /** History facts after a claim. */
  lemma ClaimExtends(w: World, c: Claim, seconds: nat)
    requires Inv(w, seconds) && w.clock <= c.now
    ensures var v := Step(w, ClaimOp(c), seconds);
            && v.clock == c.now && |v.history| == |w.history| + 1 && v.history[..|w.history|] == w.history
            && v.history[|w.history|].claim == c && Spaced(v.history, seconds)
            && (forall ip :: ip in w.registry.rows ==> ip in v.registry.rows)
            && (v.history[|w.history|].outcome != BadScore ==> Normalize(c.exitIp) in v.registry.rows)
            && (forall ip | ip !in v.registry.rows :: Refusals(v.history, ip) == 0)
  {
    var v, n := Step(w, ClaimOp(c), seconds), |w.history|;
    assert v.history[..n] == w.history;
    forall i | 0 <= i < n ensures SpacedPair(v.history[i], v.history[n], seconds) {
      ClaimIsSpaced(w, c, seconds, i);
    }
    hide RowSound, SpacedPair;
  }

  lemma ClaimKeeps(w: World, c: Claim, seconds: nat)
    requires Inv(w, seconds) && w.clock <= c.now
    ensures Inv(Step(w, ClaimOp(c), seconds), seconds)
  {
    hide RowSound, Spaced, Step, Refusals;
    ClaimExtends(w, c, seconds);
    var v, n := Step(w, ClaimOp(c), seconds), |w.history|;
    forall ip | ip in v.registry.rows ensures RowSound(v, ip, seconds) {
      ClaimKeepsRow(w, c, seconds, ip);
    }
    forall i | 0 <= i < n ensures v.history[i] == w.history[i] {
      assert v.history[..n][i] == w.history[i];
    }
  }

  lemma StepKeeps(w: World, op: Op, seconds: nat)
    requires Inv(w, seconds) && w.clock <= Time(op)
    ensures Inv(Step(w, op, seconds), seconds)
  {
    hide Inv, Step;
    match op
    case PolicyOp(_, _, _, _) => PolicyKeeps(w, op, seconds);
    case ClaimOp(c) => ClaimKeeps(w, c, seconds);
  }

  lemma {:induction false} RunKeeps(w: World, ops: seq<Op>, seconds: nat)
    requires Inv(w, seconds) && Legal(w, ops, seconds)
    ensures Inv(Run(w, ops, seconds), seconds)
    decreases |ops|
  {
    if ops != [] {
      StepKeeps(w, ops[0], seconds);
      RunKeeps(Step(w, ops[0], seconds), ops[1..], seconds);
    }
  }

  /** Over any run: a fresh grant made while the cooldown is enforced comes at least
      `seconds` after every earlier fresh grant of the same address, by whichever client or
      provider and whether or not it was enforced then. */
  lemma GrantsAreSpaced(policy: Option<Policy>, clock: int, ops: seq<Op>, seconds: nat, i: nat, j: nat)
    requires Legal(Start(policy, clock), ops, seconds)
    ensures var h := Run(Start(policy, clock), ops, seconds).history;
            i < j < |h| && h[i].outcome == Fresh && h[j].outcome == Fresh && h[j].enforced && Ip(h[i]) == Ip(h[j]) ==>
              h[j].claim.now >= h[i].claim.now + seconds
  {
    RunKeeps(Start(policy, clock), ops, seconds);
    var h := Run(Start(policy, clock), ops, seconds).history;
    assert i < j < |h| ==> SpacedPair(h[i], h[j], seconds);
  }

  /** A row always shows the last fresh grant of its address, and its counter the number of
      refusals ever made. */
  lemma RowsReflectHistory(policy: Option<Policy>, clock: int, ops: seq<Op>, seconds: nat, ip: Address)
    requires Legal(Start(policy, clock), ops, seconds)
    ensures var w := Run(Start(policy, clock), ops, seconds);
            ip in w.registry.rows ==>
              && w.registry.rows[ip].duplicateAttempts == Refusals(w.history, ip)
              && w.registry.rows[ip].availableAfter == w.registry.rows[ip].claimedAt + seconds
              && exists k: nat :: Stands(w.history, ip, w.registry.rows[ip], k)
    ensures var w := Run(Start(policy, clock), ops, seconds);
            ip !in w.registry.rows ==>
              && Refusals(w.history, ip) == 0
              && forall i | 0 <= i < |w.history| :: Ip(w.history[i]) == ip ==> w.history[i].outcome == BadScore
  {
    RunKeeps(Start(policy, clock), ops, seconds);
    var w := Run(Start(policy, clock), ops, seconds);
    assert ip in w.registry.rows ==> RowSound(w, ip, seconds);
  }

  // ------------------------------------------------------------------ between two moments of a run

  /** No step of the run claims the address. */
  predicate Spares(ops: seq<Op>, ip: Address) {
    forall i | 0 <= i < |ops| :: ops[i].ClaimOp? ==> Normalize(ops[i].claim.exitIp) != ip
  }

  lemma {:induction false} SparedRowStays(w: World, ops: seq<Op>, seconds: nat, ip: Address)
    requires Spares(ops, ip)
    ensures var v := Run(w, ops, seconds);
            (ip in v.registry.rows <==> ip in w.registry.rows) && (ip in w.registry.rows ==> v.registry.rows[ip] == w.registry.rows[ip])
    decreases |ops|
  {
    if ops != [] {
      SparedRowStays(Step(w, ops[0], seconds), ops[1..], seconds, ip);
    }
  }

  /** Whatever else happens between a pre-check and a later claim of the same reservation, as
      long as nobody claims the address and the policy ends as it was: the claim is refused
      exactly when the pre-check said duplicate and the window is still open. */
  lemma CheckForetellsClaim(w: World, ops: seq<Op>, seconds: nat, c: Claim, at: int)
    requires Spares(ops, Normalize(c.exitIp)) && at <= c.now && GoodScore(c.fraudScore)
    ensures var v, ip := Run(w, ops, seconds), Normalize(c.exitIp);
            PolicyEnabled(v.registry.policy) == PolicyEnabled(w.registry.policy) ==>
              (ClaimIp(v.registry, c, seconds).1 == Refused <==>
                 CheckIp(w.registry, c.exitIp, c.reservation, c.applyGlobalPolicy, at) && c.now < w.registry.rows[ip].availableAfter)
  {
    SparedRowStays(w, ops, seconds, Normalize(c.exitIp));
    CheckPredictsClaim(Run(w, ops, seconds).registry, c, seconds);
  }

  /** Over any run without a fresh grant of the address, refusals and replays leave its window
      and its owner where they were. */
  lemma {:induction false} WindowMovesByGrants(w: World, ops: seq<Op>, seconds: nat, ip: Address)
    requires ip in w.registry.rows
    ensures var v := Run(w, ops, seconds);
            && ip in v.registry.rows && |v.history| >= |w.history|
            && ((forall i | |w.history| <= i < |v.history| :: Ip(v.history[i]) == ip ==> v.history[i].outcome != Fresh) ==>
                  SameWindow(w.registry.rows[ip], v.registry.rows[ip]))
    decreases |ops|
  {
    if ops != [] {
      var s := Step(w, ops[0], seconds);
      if ops[0].ClaimOp? {
        OnlyFreshClaimsMoveTheWindow(w.registry, ops[0].claim, seconds, ip);
      }
      WindowMovesByGrants(s, ops[1..], seconds, ip);
      HistoryGrows(s, ops[1..], seconds);
      var v := Run(w, ops, seconds);
      assert forall i | 0 <= i < |s.history| :: v.history[i] == s.history[i];
      if ops[0].ClaimOp? {
        assert v.history[|w.history|] == s.history[|w.history|];
      }
    }
  }

  lemma {:induction false} HistoryGrows(w: World, ops: seq<Op>, seconds: nat)
    ensures w.history <= Run(w, ops, seconds).history
    decreases |ops|
  {
    if ops != [] {
      HistoryGrows(Step(w, ops[0], seconds), ops[1..], seconds);
    }
  }

  lemma NormalizeTwice(a: Address)
    ensures Normalize(Normalize(a)) == Normalize(a)
  {
  }

  /** Over any run the registry holds normal spellings only: an IPv4-mapped address never has a
      row beside the one of its IPv4 spelling. */
  lemma {:induction false} RowsAreNormal(w: World, ops: seq<Op>, seconds: nat)
    requires forall ip | ip in w.registry.rows :: Normalize(ip) == ip
    ensures forall ip | ip in Run(w, ops, seconds).registry.rows :: Normalize(ip) == ip
    ensures forall n: nat | n < 0x1_0000_0000 ::
              Normalize(V6(0xFFFF_0000_0000 + n)) == V4(n) && V6(0xFFFF_0000_0000 + n) !in Run(w, ops, seconds).registry.rows
    decreases |ops|
  {
    if ops != [] {
      var v := Step(w, ops[0], seconds);
      if ops[0].ClaimOp? {
        NormalizeTwice(ops[0].claim.exitIp);
      }
      assert forall ip | ip in v.registry.rows :: ip in w.registry.rows || Normalize(ip) == ip;
      hide Step;
      RowsAreNormal(v, ops[1..], seconds);
    }
  }

  function Revision(policy: Option<Policy>): nat {
    if policy.Some? then policy.value.revision else 0
  }

  lemma {:induction false} RevisionsGrow(w: World, ops: seq<Op>, seconds: nat)
    ensures var v := Run(w, ops, seconds);
            Revision(v.registry.policy) > Revision(w.registry.policy) || v.registry.policy == w.registry.policy
    decreases |ops|
  {
    if ops != [] {
      RevisionsGrow(Step(w, ops[0], seconds), ops[1..], seconds);
    }
  }

  /** A writer that read the revision earlier in a run gets through exactly when nobody wrote
      the policy since. */
  lemma StaleWritersAreRejected(w: World, ops: seq<Op>, seconds: nat, enabled: bool, actor: string, now: int)
    ensures var v := Run(w, ops, seconds);
            SetPolicy(v.registry.policy, enabled, actor, Some(Revision(w.registry.policy)), now).Some? <==>
              v.registry.policy == w.registry.policy
  {
    RevisionsGrow(w, ops, seconds);
  }

  // ------------------------------------------------------------------ one winner per window

  function ClaimAll(r: Registry, claims: seq<Claim>, seconds: nat): seq<Outcome>
    decreases |claims|
  {
    if claims == [] then []
    else [ClaimIp(r, claims[0], seconds).1] + ClaimAll(ClaimIp(r, claims[0], seconds).0, claims[1..], seconds)
  }

  /** Enforced claims of one address before `until`, by reservations that are not `owner`. */
  ghost predicate Contest(r: Registry, claims: seq<Claim>, ip: Address, owner: Option<nat>, until: int) {
    forall i | 0 <= i < |claims| ::
      && Normalize(claims[i].exitIp) == ip && Enforced(r, claims[i].applyGlobalPolicy) && GoodScore(claims[i].fraudScore)
      && claims[i].now < until && (claims[i].reservation.Some? ==> Pk(claims[i].reservation) != owner)
  }

  lemma {:induction false} LosersAreRefused(r: Registry, claims: seq<Claim>, seconds: nat, ip: Address)
    requires ip in r.rows && Contest(r, claims, ip, r.rows[ip].reservation, r.rows[ip].availableAfter)
    ensures |ClaimAll(r, claims, seconds)| == |claims|
    ensures forall i | 0 <= i < |claims| :: ClaimAll(r, claims, seconds)[i] == Refused
    decreases |claims|
  {
    if claims != [] {
      LosersAreRefused(ClaimIp(r, claims[0], seconds).0, claims[1..], seconds, ip);
    }
  }

  /** Of any claims of a free address in one window by different reservations, in any order,
      the first wins and every other one is refused. */
  lemma OneWinnerPerWindow(r: Registry, claims: seq<Claim>, seconds: nat)
    requires claims != []
    requires !Cooling(r, Normalize(claims[0].exitIp), claims[0].now)
    requires forall i | 0 <= i < |claims| ::
               && Normalize(claims[i].exitIp) == Normalize(claims[0].exitIp) && GoodScore(claims[i].fraudScore)
               && Enforced(r, claims[i].applyGlobalPolicy) && claims[i].now < claims[0].now + seconds
    requires forall i, j | 0 <= i < j < |claims| ::
               claims[j].reservation.Some? ==> Pk(claims[i].reservation) != Pk(claims[j].reservation)
    ensures var outcomes := ClaimAll(r, claims, seconds);
            |outcomes| == |claims| && outcomes[0] == Fresh && forall i | 0 < i < |outcomes| :: outcomes[i] == Refused
  {
    var s := ClaimIp(r, claims[0], seconds).0;
    LosersAreRefused(s, claims[1..], seconds, Normalize(claims[0].exitIp));
  }
}
