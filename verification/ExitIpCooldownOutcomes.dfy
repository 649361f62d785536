/** What a claim is told, and what it writes, from the claims that were made before it. */
module ExitIpCooldownOutcomes {
  import opened Wrappers
  import opened ExitIpCooldown
  import opened ExitIpCooldownRuns

  // ------------------------------------------------------------------ the four outcomes

  /** Event `k` is the last fresh grant of the address. */
  predicate LastGrant(history: seq<Event>, ip: Address, k: nat) {
    && k < |history| && history[k].outcome == Fresh && Ip(history[k]) == ip
    && forall j | k < j < |history| :: Ip(history[j]) == ip ==> history[j].outcome != Fresh
  }

  /** The window of the last fresh grant is open at `now`. */
  ghost predicate IsOpen(history: seq<Event>, ip: Address, now: int, seconds: nat) {
    exists k: nat :: LastGrant(history, ip, k) && now < history[k].claim.now + seconds
  }

  /** The last fresh grant was given to this reservation. */
  ghost predicate IsOwn(history: seq<Event>, ip: Address, reservation: Reserved) {
    exists k: nat ::
      LastGrant(history, ip, k) && history[k].claim.reservation.Some? && history[k].claim.reservation.value.pk == reservation.pk
  }

  /** With a row, the two questions are answered by it. */
  lemma RowAnswers(w: World, ip: Address, seconds: nat, now: int, reservation: Reserved)
    requires ip in w.registry.rows && RowSound(w, ip, seconds)
    ensures IsOpen(w.history, ip, now, seconds) <==> now < w.registry.rows[ip].availableAfter
    ensures IsOwn(w.history, ip, reservation) <==> w.registry.rows[ip].reservation == Some(reservation.pk)
  {
    var k: nat :| Stands(w.history, ip, w.registry.rows[ip], k);
    assert LastGrant(w.history, ip, k);
    assert forall j: nat | LastGrant(w.history, ip, j) :: j == k;
  }

  /** After any run, a claim with a score outside 0 to 100 is rejected; one by the reservation of
      the last fresh grant, while that grant's window is open, is a replay; any other one is
      refused when the window is open and the cooldown is enforced, and is granted otherwise. */
  lemma OutcomesExactly(policy: Option<Policy>, clock: int, ops: seq<Op>, seconds: nat, c: Claim)
    requires Legal(Start(policy, clock), ops, seconds)
    ensures var w := Run(Start(policy, clock), ops, seconds);
            var (ip, outcome) := (Normalize(c.exitIp), ClaimIp(w.registry, c, seconds).1);
            var good := c.fraudScore.None? || 0 <= c.fraudScore.value <= 100;
            var enforced := !c.applyGlobalPolicy || w.registry.policy.None? || w.registry.policy.value.enabled;
            var open := IsOpen(w.history, ip, c.now, seconds);
            var own := c.reservation.Some? && IsOwn(w.history, ip, c.reservation.value);
            && (outcome == BadScore <==> !good)
            && (outcome == Replay <==> good && open && own)
            && (outcome == Refused <==> good && open && !own && enforced)
            && (outcome == Fresh <==> good && (!open || (!own && !enforced)))
  {
    RunKeeps(Start(policy, clock), ops, seconds);
    var w, ip := Run(Start(policy, clock), ops, seconds), Normalize(c.exitIp);
    hide Run, Legal, Spaced, Refusals, SpacedPair, Normalize, Granted, Recorded;
    if ip in w.registry.rows {
      assert RowSound(w, ip, seconds);
      RowAnswers(w, ip, seconds, c.now, if c.reservation.Some? then c.reservation.value else Reserved(0, None));
    } else {
      assert forall i | 0 <= i < |w.history| :: Ip(w.history[i]) == ip ==> w.history[i].outcome == BadScore;
    }
  }

  /** Two spellings name one address exactly when they are equal or one is the IPv4-mapped form,
      `::ffff:0:0` plus the 32 bits, of the other. */
  predicate IsMappedForm(a: Address, b: Address) {
    a.V6? && b.V4? && b.bits < 0x1_0000_0000 && a.bits == 0xFFFF_0000_0000 + b.bits
  }

  lemma SameAddress(a: Address, b: Address)
    ensures Normalize(a) == Normalize(b) <==> a == b || IsMappedForm(a, b) || IsMappedForm(b, a)
  {
    MappedBits(a.bits);
    MappedBits(b.bits);
  }

  lemma MappedBits(n: nat)
    ensures n / 0x1_0000_0000 == 0xFFFF <==> 0xFFFF_0000_0000 <= n < 0x1_0000_0000_0000
    ensures n / 0x1_0000_0000 == 0xFFFF ==> n % 0x1_0000_0000 == n - 0xFFFF_0000_0000
  {
  }

  // ------------------------------------------------------------------ what the claims write

  /** The row of an address, replayed from the claims made so far: a fresh grant takes over
      everything but the record of duplicates, a replay brings a score, and a refusal adds to
      the record of duplicates. */
  function Replayed(history: seq<Event>, ip: Address, seconds: nat): Option<Cooldown> {
    if history == [] then None
    else
      var n := |history| - 1;
      var before, c := Replayed(history[..n], ip, seconds), history[n].claim;
      if Normalize(c.exitIp) != ip then before
      else
        match history[n].outcome
        case BadScore => before
        case Fresh =>
          Some(Cooldown(
                 c.client, c.job, if c.reservation.Some? then Some(c.reservation.value.pk) else None, c.provider, c.fraudScore,
                 c.now, c.now + seconds,
                 if before.Some? then before.value.duplicateAttempts else 0,
                 if before.Some? then before.value.lastDuplicateAt else None))
        case Replay =>
          if before.Some? && c.fraudScore.Some? then Some(before.value.(fraudScore := c.fraudScore)) else before
        case Refused =>
          if before.Some? then Some(before.value.(duplicateAttempts := before.value.duplicateAttempts + 1, lastDuplicateAt := Some(c.now))) else before
  }

  /** The test record of a pool entry: the last claim by a reservation of it, whatever came of the
      claim, unless its score was rejected. */
  function LastTest(history: seq<Event>, entry: nat): Option<PoolTest> {
    if history == [] then None
    else
      var n := |history| - 1;
      var c := history[n].claim;
      if history[n].outcome != BadScore && c.reservation.Some? && c.reservation.value.poolEntry == Some(entry)
      then Some(PoolTest(Normalize(c.exitIp), c.fraudScore, c.now))
      else LastTest(history[..n], entry)
  }

  /** The registry is what the claims so far leave. */
  ghost predicate IsReplayed(w: World, seconds: nat) {
    && (forall ip :: (ip in w.registry.rows <==> Replayed(w.history, ip, seconds).Some?) &&
                     (ip in w.registry.rows ==> w.registry.rows[ip] == Replayed(w.history, ip, seconds).value))
    && (forall entry :: (entry in w.registry.tests <==> LastTest(w.history, entry).Some?) &&
                        (entry in w.registry.tests ==> w.registry.tests[entry] == LastTest(w.history, entry).value))
  }

  /** The row of an address after one more claim. */
  lemma ClaimRow(w: World, c: Claim, seconds: nat, ip: Address)
    requires (if ip in w.registry.rows then Some(w.registry.rows[ip]) else None) == Replayed(w.history, ip, seconds)
    ensures var v := Step(w, ClaimOp(c), seconds);
            (if ip in v.registry.rows then Some(v.registry.rows[ip]) else None) == Replayed(v.history, ip, seconds)
  {
    assert Step(w, ClaimOp(c), seconds).history[..|w.history|] == w.history;
    hide Normalize, Recorded;
  }

  /** The test record of a pool entry after one more claim. */
  lemma ClaimTest(w: World, c: Claim, seconds: nat, entry: nat)
    requires (if entry in w.registry.tests then Some(w.registry.tests[entry]) else None) == LastTest(w.history, entry)
    ensures var v := Step(w, ClaimOp(c), seconds);
            (if entry in v.registry.tests then Some(v.registry.tests[entry]) else None) == LastTest(v.history, entry)
  {
    assert Step(w, ClaimOp(c), seconds).history[..|w.history|] == w.history;
    ClaimTests(w.registry, c, seconds);
    hide ClaimIp, Normalize, Enforced;
  }

  /** Every claim whose score is good is recorded as a test. */
  lemma ClaimTests(r: Registry, c: Claim, seconds: nat)
    ensures var (s, outcome) := ClaimIp(r, c, seconds); s.tests == if outcome == BadScore then r.tests else Recorded(r.tests, c)
  {
    hide Recorded, Granted, Normalize;
  }

  lemma StepIsReplayed(w: World, op: Op, seconds: nat)
    requires IsReplayed(w, seconds)
    ensures IsReplayed(Step(w, op, seconds), seconds)
  {
    if op.ClaimOp? {
      var v := Step(w, op, seconds);
      hide Step, Replayed, LastTest;
      forall ip ensures (if ip in v.registry.rows then Some(v.registry.rows[ip]) else None) == Replayed(v.history, ip, seconds) {
        ClaimRow(w, op.claim, seconds, ip);
      }
      forall entry ensures (if entry in v.registry.tests then Some(v.registry.tests[entry]) else None) == LastTest(v.history, entry) {
        ClaimTest(w, op.claim, seconds, entry);
      }
    }
  }

  lemma {:induction false} RunIsReplayed(w: World, ops: seq<Op>, seconds: nat)
    requires IsReplayed(w, seconds)
    ensures IsReplayed(Run(w, ops, seconds), seconds)
    decreases |ops|
  {
    if ops != [] {
      StepIsReplayed(w, ops[0], seconds);
      hide Step, IsReplayed;
      RunIsReplayed(Step(w, ops[0], seconds), ops[1..], seconds);
    }
  }

  /** After any run every row is exactly what the claims of its address left, field by field, and
      so is the test record of every pool entry. */
  lemma RegistryIsReplayed(policy: Option<Policy>, clock: int, ops: seq<Op>, seconds: nat, ip: Address, entry: nat)
    ensures var w := Run(Start(policy, clock), ops, seconds);
            && (if ip in w.registry.rows then Some(w.registry.rows[ip]) else None) == Replayed(w.history, ip, seconds)
            && (if entry in w.registry.tests then Some(w.registry.tests[entry]) else None) == LastTest(w.history, entry)
  {
    RunIsReplayed(Start(policy, clock), ops, seconds);
  }
}
