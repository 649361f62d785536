/** The global exit-IP cooldown (control/exit_ip_cooldown.py).

    `Registry` holds the cooldown rows, the policy row and the quality data recorded on pool
    entries.  Requests are functions on it; `CooldownDesk` performs them field by field. */
module ExitIpCooldown {
  import opened Wrappers

  // ------------------------------------------------------------------ addresses

  datatype Address = V4(bits: nat) | V6(bits: nat)

  /** An IPv4-mapped IPv6 address (section 2.5.5.2 of RFC 4291) is the IPv4 address. */
  function Normalize(a: Address): Address {
    if a.V6? && a.bits / 0x1_0000_0000 == 0xFFFF then V4(a.bits % 0x1_0000_0000) else a
  }

  // ------------------------------------------------------------------ tables

  datatype Cooldown = Cooldown(
    client: nat,
    job: Option<nat>,
    reservation: Option<nat>,
    provider: string,
    fraudScore: Option<int>,
    claimedAt: int,
    availableAfter: int,
    duplicateAttempts: nat,
    lastDuplicateAt: Option<int>)

  datatype Policy = Policy(enabled: bool, revision: nat, updatedAt: Option<int>, updatedBy: string)

  datatype PoolTest = PoolTest(exitIp: Address, fraudScore: Option<int>, testedAt: int)

  datatype Registry = Registry(rows: map<Address, Cooldown>, policy: Option<Policy>, tests: map<nat, PoolTest>)

  /** A reservation and the pool entry it came from. */
  datatype Reserved = Reserved(pk: nat, poolEntry: Option<nat>)

  datatype Claim = Claim(
    client: nat,
    provider: string,
    exitIp: Address,
    job: Option<nat>,
    reservation: Option<Reserved>,
    fraudScore: Option<int>,
    applyGlobalPolicy: bool,
    now: int)

  datatype Outcome = Fresh | Replay | Refused | BadScore

  // ------------------------------------------------------------------ the claim

  /** Without a policy row the cooldown is enforced. */
  function PolicyEnabled(policy: Option<Policy>): bool {
    policy.None? || policy.value.enabled
  }

  predicate Enforced(r: Registry, applyGlobalPolicy: bool) {
    !applyGlobalPolicy || PolicyEnabled(r.policy)
  }

  predicate GoodScore(fraudScore: Option<int>) {
    fraudScore.Some? ==> 0 <= fraudScore.value <= 100
  }

  predicate Cooling(r: Registry, ip: Address, now: int) {
    ip in r.rows && r.rows[ip].availableAfter > now
  }

  function Pk(reservation: Option<Reserved>): Option<nat> {
    if reservation.Some? then Some(reservation.value.pk) else None
  }

  predicate OwnedBy(r: Registry, ip: Address, reservation: Option<Reserved>) {
    ip in r.rows && reservation.Some? && r.rows[ip].reservation == Pk(reservation)
  }

  function Recorded(tests: map<nat, PoolTest>, c: Claim): map<nat, PoolTest> {
    if c.reservation.Some? && c.reservation.value.poolEntry.Some?
    then tests[c.reservation.value.poolEntry.value := PoolTest(Normalize(c.exitIp), c.fraudScore, c.now)]
    else tests
  }

  function Granted(c: Claim, seconds: nat, attempts: nat, lastDuplicateAt: Option<int>): Cooldown {
    Cooldown(c.client, c.job, Pk(c.reservation), c.provider, c.fraudScore, c.now, c.now + seconds, attempts, lastDuplicateAt)
  }

  /** `claim_exit_ip` with a cooldown of `seconds`. */
  function ClaimIp(r: Registry, c: Claim, seconds: nat): (Registry, Outcome) {
    var ip := Normalize(c.exitIp);
    if !GoodScore(c.fraudScore) then (r, BadScore)
    else
      var tested := r.(tests := Recorded(r.tests, c));
      if ip !in r.rows then (tested.(rows := r.rows[ip := Granted(c, seconds, 0, None)]), Fresh)
      else
        var row := r.rows[ip];
        if OwnedBy(r, ip, c.reservation) && Cooling(r, ip, c.now) then
          (if c.fraudScore.Some? then tested.(rows := r.rows[ip := row.(fraudScore := c.fraudScore)]) else tested, Replay)
        else if Enforced(r, c.applyGlobalPolicy) && Cooling(r, ip, c.now) then
          (tested.(rows := r.rows[ip := row.(duplicateAttempts := row.duplicateAttempts + 1, lastDuplicateAt := Some(c.now))]), Refused)
        else
          (tested.(rows := r.rows[ip := Granted(c, seconds, row.duplicateAttempts, row.lastDuplicateAt)]), Fresh)
  }

  /** `check_exit_ip`: whether a claim would be a duplicate. */
  function CheckIp(r: Registry, exitIp: Address, reservation: Option<Reserved>, applyGlobalPolicy: bool, now: int): bool {
    var ip := Normalize(exitIp);
    Enforced(r, applyGlobalPolicy) && Cooling(r, ip, now) && (reservation.None? || r.rows[ip].reservation != Some(reservation.value.pk))
  }

  /** `set_cooldown_policy`; `None` is a stale write. */
  function SetPolicy(policy: Option<Policy>, enabled: bool, actor: string, expected: Option<nat>, now: int): Option<Policy> {
    var current := if policy.Some? then policy.value else Policy(true, 0, None, "");
    if expected.Some? && expected.value != current.revision then None
    else Some(Policy(enabled, current.revision + 1, Some(now), actor))
  }

  // ------------------------------------------------------------------ the mutable tables

  class CooldownDesk {
    var rows: map<Address, Cooldown>
    var policy: Option<Policy>
    var tests: map<nat, PoolTest>

    constructor ()
      ensures View() == Registry(map[], None, map[])
    {
      rows, policy, tests := map[], None, map[];
    }

    function View(): Registry
      reads this
    {
      Registry(rows, policy, tests)
    }

    method RecordPoolTest(c: Claim)
      modifies `tests
      ensures tests == Recorded(old(tests), c)
    {
      if c.reservation.Some? && c.reservation.value.poolEntry.Some? {
        tests := tests[c.reservation.value.poolEntry.value := PoolTest(Normalize(c.exitIp), c.fraudScore, c.now)];
      }
    }

    method ClaimExitIp(c: Claim, seconds: nat) returns (outcome: Outcome)
      modifies this
      ensures (View(), outcome) == ClaimIp(old(View()), c, seconds)
    {
      var ip := Normalize(c.exitIp);
      if c.fraudScore.Some? && !(0 <= c.fraudScore.value <= 100) {
        return BadScore;
      }
      var availableAfter := c.now + seconds;
      var enabled := !c.applyGlobalPolicy || PolicyEnabled(policy);
      if ip !in rows {
        rows := rows[ip := Cooldown(c.client, c.job, Pk(c.reservation), c.provider, c.fraudScore, c.now, availableAfter, 0, None)];
        RecordPoolTest(c);
        return Fresh;
      }
      var cooldown := rows[ip];
      if c.reservation.Some? && cooldown.reservation == Some(c.reservation.value.pk) && cooldown.availableAfter > c.now {
        if c.fraudScore.Some? && cooldown.fraudScore != c.fraudScore {
          cooldown := cooldown.(fraudScore := c.fraudScore);
          rows := rows[ip := cooldown];
        } else {
          assert rows == rows[ip := cooldown];
        }
        RecordPoolTest(c);
        return Replay;
      }
      if enabled && cooldown.availableAfter > c.now {
        rows := rows[ip := cooldown.(duplicateAttempts := cooldown.duplicateAttempts + 1, lastDuplicateAt := Some(c.now))];
        RecordPoolTest(c);
        return Refused;
      }
      cooldown := cooldown.(client := c.client, job := c.job, reservation := Pk(c.reservation), provider := c.provider);
      cooldown := cooldown.(fraudScore := c.fraudScore, claimedAt := c.now, availableAfter := availableAfter);
      rows := rows[ip := cooldown];
      RecordPoolTest(c);
      outcome := Fresh;
    }

    /** The early check changes nothing. */
    method CheckExitIp(exitIp: Address, reservation: Option<Reserved>, applyGlobalPolicy: bool, now: int) returns (duplicate: bool)
      ensures duplicate == CheckIp(View(), exitIp, reservation, applyGlobalPolicy, now)
    {
      var ip := Normalize(exitIp);
      var enabled := !applyGlobalPolicy || PolicyEnabled(policy);
      if !enabled || ip !in rows {
        return false;
      }
      var cooldown := rows[ip];
      duplicate := cooldown.availableAfter > now && (reservation.None? || cooldown.reservation != Some(reservation.value.pk));
    }

    method SetCooldownPolicy(enabled: bool, actor: string, expected: Option<nat>, now: int) returns (ok: bool)
      modifies `policy
      ensures var revision := if old(policy).Some? then old(policy).value.revision else 0;
              && (ok <==> expected.None? || expected.value == revision)
              && policy == if ok then Some(Policy(enabled, revision + 1, Some(now), actor)) else old(policy)
      ensures var r := SetPolicy(old(policy), enabled, actor, expected, now);
              ok == r.Some? && policy == if ok then r else old(policy)
    {
      var current := Policy(true, 0, None, "");
      if policy.Some? {
        current := policy.value;
      }
      if expected.Some? && current.revision != expected.value {
        return false;
      }
      current := current.(enabled := enabled);
      current := current.(revision := current.revision + 1);
      current := current.(updatedAt := Some(now), updatedBy := actor);
      policy := Some(current);
      ok := true;
    }
  }
}
