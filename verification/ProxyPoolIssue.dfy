/** Exactly-once issue over every run. */
module ProxyPoolIssue {
  import opened Wrappers
  import opened ProxyPool
  import opened ProxyPoolFacts
  import opened ProxyPoolSound
  import opened ProxyPoolRuns

  /** Exactly-once issue over every run: each reserved entry has exactly one reservation, with
      its line, its digest and its client; an entry in stock has none; no fingerprint is
      issued twice; and what was issued stays issued. */
  lemma IssuedExactlyOnce(env: Env, before: seq<Op>, after: seq<Op>)
    requires Legal(env, Empty, before) && Legal(env, Run(env, Empty, before), after)
    ensures var p := Run(env, Empty, before);
            var q := Run(env, p, after);
            && (forall i: nat | i < |q.entries| && q.entries[i].state == Reserved ::
                  exists k :: 0 <= k < |q.reservations| && q.reservations[k].entry == Some(i))
            && (forall k, i: nat | 0 <= k < |q.reservations| && q.reservations[k].entry == Some(i) ::
                  && i < |q.entries| && q.entries[i].state == Reserved
                  && q.entries[i].line == q.reservations[k].line && q.entries[i].client == Some(q.reservations[k].client)
                  && q.entries[i].fingerprint == q.reservations[k].fingerprint == env.digest(q.entries[i].line))
            && (forall j, k | 0 <= j < k < |q.reservations| ::
                  q.reservations[j].fingerprint != q.reservations[k].fingerprint &&
                  (q.reservations[j].entry == q.reservations[k].entry ==> q.reservations[j].entry.None?))
            && p.reservations <= q.reservations
            && (forall i | 0 <= i < |p.entries| && p.entries[i].state == Reserved :: i < |q.entries| && q.entries[i] == p.entries[i])
  {
    hide *;
    EmptyIsSound(env);
    RunIsGood(env, Empty, before);
    var p := Run(env, Empty, before);
    GoodIsSound(env, Empty, p);
    RunIsGood(env, p, after);
    IssuedOnce(env, p, Run(env, p, after));
  }

  lemma EmptyIsSound(env: Env)
    ensures Sound(env, Empty)
  {
  }

  lemma GoodIsSound(env: Env, p: Pool, q: Pool)
    requires Good(env, p, q)
    ensures Sound(env, q)
  {
    hide Sound, Extends;
  }

  lemma IssuedOnce(env: Env, p: Pool, q: Pool)
    requires Good(env, p, q)
    ensures && (forall i: nat | i < |q.entries| && q.entries[i].state == Reserved ::
                  exists k :: 0 <= k < |q.reservations| && q.reservations[k].entry == Some(i))
            && (forall k, i: nat | 0 <= k < |q.reservations| && q.reservations[k].entry == Some(i) ::
                  && i < |q.entries| && q.entries[i].state == Reserved
                  && q.entries[i].line == q.reservations[k].line && q.entries[i].client == Some(q.reservations[k].client)
                  && q.entries[i].fingerprint == q.reservations[k].fingerprint == env.digest(q.entries[i].line))
            && (forall j, k | 0 <= j < k < |q.reservations| ::
                  q.reservations[j].fingerprint != q.reservations[k].fingerprint &&
                  (q.reservations[j].entry == q.reservations[k].entry ==> q.reservations[j].entry.None?))
            && p.reservations <= q.reservations
            && (forall i | 0 <= i < |p.entries| && p.entries[i].state == Reserved :: i < |q.entries| && q.entries[i] == p.entries[i])
  {
    assert forall i: nat | i < |q.entries| && q.entries[i].state == Reserved :: Backed(q.reservations, i);
    assert forall k | 0 <= k < |q.reservations| :: Matches(q.entries, q.reservations[k]);
    assert forall i | 0 <= i < |p.entries| :: LaterEntry(p.entries[i], q.entries[i]);
    hide UniqueScopes;
  }
}
