/** What any prefill leaves, completed or not: the tables of the refills of whole batches, up to
    the first batch with a target that is missing, switched off, owned or cannot be filled. */
module ProxyPrefillFailure {
  import opened Wrappers
  import opened Sequences
  import opened ProxyPool
  import opened ProxyPoolFacts
  import opened ProxyPrefill
  import opened ProxyPrefillRefinement
  import opened ProxyPrefillOrder

  // ------------------------------------------------------------------ the targets that are there

  predicate IsPresent(p: Pool, t: nat) {
    t < |p.targets| && p.targets[t].active
  }

  /** The targets of a list that exist and are active. */
  function Present(p: Pool, targets: seq<nat>): seq<nat>
    decreases |targets|
  {
    if targets == [] then []
    else (if IsPresent(p, targets[0]) then [targets[0]] else []) + Present(p, targets[1..])
  }

  ghost predicate Once(targets: seq<nat>) {
    forall i, j | 0 <= i < j < |targets| :: targets[i] != targets[j]
  }

  lemma {:induction false} PresentIn(p: Pool, targets: seq<nat>)
    ensures forall x :: x in Present(p, targets) <==> x in targets && IsPresent(p, x)
    decreases |targets|
  {
    if targets != [] {
      PresentIn(p, targets[1..]);
    }
  }

  lemma {:induction false} PresentAppends(p: Pool, a: seq<nat>, b: seq<nat>)
    ensures Present(p, a + b) == Present(p, a) + Present(p, b)
    decreases |a|
  {
    if a == [] {
      assert a + b == b;
    } else {
      assert (a + b)[0] == a[0] && (a + b)[1..] == a[1..] + b;
      PresentAppends(p, a[1..], b);
    }
  }

  lemma {:induction false} AllPresent(p: Pool, a: seq<nat>)
    requires forall i | 0 <= i < |a| :: IsPresent(p, a[i])
    ensures Present(p, a) == a
    decreases |a|
  {
    if a != [] {
      AllPresent(p, a[1..]);
    }
  }

  lemma {:induction false} PresentAgrees(p: Pool, q: Pool, a: seq<nat>)
    requires SameShape(p.targets, q.targets)
    ensures Present(p, a) == Present(q, a)
    decreases |a|
  {
    if a != [] {
      PresentAgrees(p, q, a[1..]);
    }
  }

  lemma UnownedIsPresent(p: Pool, a: seq<nat>, staleBefore: int)
    requires Unowned(p, a, staleBefore)
    ensures Present(p, a) == a
  {
    forall i | 0 <= i < |a| ensures IsPresent(p, a[i]) {}
    hide Unowned;
    AllPresent(p, a);
  }

  /** Each target is listed once, and the lines on offer for those that are there are fresh. */
  ghost predicate Offered(env: Env, p: Pool, targets: seq<nat>, supply: Supply) {
    Once(targets) && Prepared(env, p, Present(p, targets), supply)
  }

  lemma OnceInParts(a: seq<nat>, b: seq<nat>)
    requires Once(a + b)
    ensures Once(a) && Once(b) && forall x | x in b :: x !in a
  {
    assert forall i | 0 <= i < |a| :: (a + b)[i] == a[i];
    assert forall i | 0 <= i < |b| :: (a + b)[|a| + i] == b[i];
    forall i, j | 0 <= i < |a| && 0 <= j < |b| ensures a[i] != b[j] {
      assert (a + b)[i] != (a + b)[|a| + j];
    }
  }

  // ------------------------------------------------------------------ where a prefill stops

  /** The next batch cannot be committed: one of its targets is missing, switched off or owned,
      or one of its refills in turn raises. */
  ghost predicate Blocked(env: Env, q: Pool, next: seq<nat>, supply: Supply, staleBefore: int) {
    !Unowned(q, next, staleBefore) ||
    (Generous(q, supply) && InTurn(env, q, LockedBatch(q.targets, set i | i in next, |q.targets|), supply).None?)
  }

  /** Nothing of target `t` has changed. */
  ghost predicate Untouched(p: Pool, q: Pool, t: nat) {
    t < |p.targets| ==> t < |q.targets| && q.targets[t] == p.targets[t] && Alike(p, q, t)
  }

  /** How many of the first `m` targets lie in whole batches among them. */
  function Whole(m: nat, size: nat): (n: nat)
    requires size > 0
    ensures n <= m < n + size
  {
    if m < size then 0 else size + Whole(m - size, size)
  }

  /** A prefill from `p` stops in `q` after the first `n` targets: they were refilled batch by
      batch, the next batch is blocked, and the targets from there on are untouched. */
  ghost predicate StopsAfter(env: Env, p: Pool, q: Pool, targets: seq<nat>, size: nat, supply: Supply, staleBefore: int, n: nat)
    requires size > 0 && Generous(p, supply)
  {
    && n <= |targets| && |q.targets| == |p.targets| && Unowned(p, targets[..n], staleBefore)
    && InTurn(env, p, ProcessingOrder(p.targets, targets[..n], size), supply) == Some(q)
    && (n < |targets| ==> Whole(n, size) == n && Blocked(env, q, Take(targets[n..], size), supply, staleBefore))
    && (forall i | n <= i < |targets| :: Untouched(p, q, targets[i]))
  }

  /** A batch of unowned targets is its refills in turn, and leaves the rest of the list alone. */
  lemma CommittedLeaves(env: Env, p: Pool, chunk: seq<nat>, rest: seq<nat>, supply: Supply, now: int, staleBefore: int)
    requires Generous(p, supply) && Offered(env, p, chunk + rest, supply) && Unowned(p, chunk, staleBefore)
    ensures var batch := LockedBatch(p.targets, set i | i in chunk, |p.targets|);
            FillBatch(env, p, chunk, supply, now, staleBefore) == InTurn(env, p, batch, supply)
    ensures var r := FillBatch(env, p, chunk, supply, now, staleBefore);
            r.Some? ==>
              && Generous(r.value, supply) && Offered(env, r.value, rest, supply) && SameShape(p.targets, r.value.targets)
              && forall i | 0 <= i < |rest| :: Untouched(p, r.value, rest[i])
  {
    var batch := LockedBatch(p.targets, set i | i in chunk, |p.targets|);
    var r := FillBatch(env, p, chunk, supply, now, staleBefore);
    OnceInParts(chunk, rest);
    PresentAppends(p, chunk, rest);
    UnownedIsPresent(p, chunk, staleBefore);
    hide Unowned, FillBatch, LockedBatch, InTurn, Generous, Present, Once;
    assert Prepared(env, p, chunk + Present(p, rest), supply);
    UnownedBatch(env, p, chunk, Present(p, rest), batch, supply, now, staleBefore);
    if r.Some? {
      PresentAgrees(p, r.value, rest);
      CommittedBatch(env, p, chunk, supply, now, staleBefore);
      LockedIsPrepared(env, p, chunk, supply);
      forall i | 0 <= i < |rest| ensures Untouched(p, r.value, rest[i]) {
        var t := rest[i];
        if t < |p.targets| {
          assert t !in chunk && t !in batch;
          InTurnLeaves(env, p, batch, supply, t);
        }
      }
    }
  }

  lemma UnownedBatch(env: Env, p: Pool, chunk: seq<nat>, there: seq<nat>, batch: seq<nat>, supply: Supply, now: int, staleBefore: int)
    requires Generous(p, supply) && Prepared(env, p, chunk + there, supply) && Unowned(p, chunk, staleBefore)
    requires batch == LockedBatch(p.targets, set i | i in chunk, |p.targets|)
    ensures Prepared(env, p, chunk, supply)
    ensures FillBatch(env, p, chunk, supply, now, staleBefore) == InTurn(env, p, batch, supply)
    ensures var r := FillBatch(env, p, chunk, supply, now, staleBefore);
            r.Some? ==> Generous(r.value, supply) && Prepared(env, r.value, there, supply) && SameShape(p.targets, r.value.targets)
  {
    hide *;
    PreparedPart(env, p, chunk, there, supply);
    UnfoldPrepared(env, p, chunk, supply);
    UnfoldPrepared(env, p, chunk + there, supply);
    UnfoldEligible(p, chunk);
    BatchEqualsInTurn(env, p, chunk, supply, now, staleBefore);
    FillBatchTargets(env, p, chunk, supply, now, staleBefore);
    BatchIsDistinct(p, chunk, there, batch);
    LockedIsPrepared(env, p, chunk, supply);
    BatchThenRest(env, p, chunk, there, batch, supply);
    InTurnKeepsFresh(env, p, batch, there, supply);
    var r := FillBatch(env, p, chunk, supply, now, staleBefore);
    if r.Some? {
      FoldPrepared(env, r.value, there, supply);
    }
  }

  lemma UnfoldEligible(p: Pool, ts: seq<nat>)
    requires Eligible(p, ts)
    ensures UniqueScopes(p.targets)
  {
  }

  lemma FoldPrepared(env: Env, p: Pool, ts: seq<nat>, supply: Supply)
    requires Eligible(p, ts) && FreshSupply(env, p, ts, supply) && Generous(p, supply)
    ensures Prepared(env, p, ts, supply)
  {
  }

  lemma BatchThenRest(env: Env, p: Pool, chunk: seq<nat>, there: seq<nat>, batch: seq<nat>, supply: Supply)
    requires FreshSupply(env, p, chunk + there, supply) && Reorders(chunk, batch)
    ensures FreshSupply(env, p, batch + there, supply)
  {
    hide FreshSupply;
    forall a | 0 <= a < |batch + there| ensures (batch + there)[a] in chunk + there {
      if a < |batch| {
        assert batch[a] in chunk;
      }
    }
    FreshSupplyOfSome(env, p, chunk + there, batch + there, supply);
  }

  lemma UntouchedTransitive(p: Pool, q: Pool, r: Pool, t: nat)
    requires |p.targets| == |q.targets| && Untouched(p, q, t) && Untouched(q, r, t)
    ensures Untouched(p, r, t)
  {
    hide Alike;
    if t < |p.targets| {
      AlikeTransitive(p, q, r, t);
    }
  }

  lemma UntouchedItself(p: Pool, t: nat)
    ensures Untouched(p, p, t)
  {
    if t < |p.targets| {
      AlikeItself(p, t);
    }
  }

  lemma NothingProcessed(env: Env, p: Pool, targets: seq<nat>, size: nat, supply: Supply, staleBefore: int)
    requires size > 0 && Generous(p, supply)
    ensures targets[..0] == [] && targets[0..] == targets && Unowned(p, targets[..0], staleBefore) && Whole(0, size) == 0
    ensures InTurn(env, p, ProcessingOrder(p.targets, targets[..0], size), supply) == Some(p)
    ensures forall i | 0 <= i < |targets| :: Untouched(p, p, targets[i])
  {
    assert targets[..0] == [] && targets[0..] == targets;
    forall i | 0 <= i < |targets| ensures Untouched(p, p, targets[i]) {
      UntouchedItself(p, targets[i]);
    }
    hide Untouched, Generous;
  }

  /** A batch of unowned targets that raises is blocked. */
  lemma RaisingIsBlocked(env: Env, p: Pool, chunk: seq<nat>, rest: seq<nat>, supply: Supply, now: int, staleBefore: int)
    requires Generous(p, supply) && Offered(env, p, chunk + rest, supply) && FillBatch(env, p, chunk, supply, now, staleBefore).None?
    ensures Blocked(env, p, chunk, supply, staleBefore)
  {
    hide Offered, FillBatch, Unowned, InTurn, LockedBatch, Generous;
    if Unowned(p, chunk, staleBefore) {
      CommittedLeaves(env, p, chunk, rest, supply, now, staleBefore);
    }
  }

  /** The first batch is blocked: nothing happens. */
  lemma StopsAtOnce(env: Env, p: Pool, targets: seq<nat>, size: nat, supply: Supply, now: int, staleBefore: int)
    requires size > 0 && Generous(p, supply) && Offered(env, p, targets, supply) && targets != []
    requires FillBatch(env, p, Take(targets, size), supply, now, staleBefore).None?
    ensures StopsAfter(env, p, p, targets, size, supply, staleBefore, 0)
  {
    hide *;
    var chunk, rest := FirstBatchOf(targets, size);
    NothingProcessed(env, p, targets, size, supply, staleBefore);
    RaisingIsBlocked(env, p, chunk, rest, supply, now, staleBefore);
    FoldStops(env, p, p, targets, size, supply, staleBefore, 0);
  }

  lemma FoldStops(env: Env, p: Pool, q: Pool, targets: seq<nat>, size: nat, supply: Supply, staleBefore: int, n: nat)
    requires size > 0 && Generous(p, supply) && n <= |targets| && |q.targets| == |p.targets| && Unowned(p, targets[..n], staleBefore)
    requires InTurn(env, p, ProcessingOrder(p.targets, targets[..n], size), supply) == Some(q)
    requires n < |targets| ==> Whole(n, size) == n && Blocked(env, q, Take(targets[n..], size), supply, staleBefore)
    requires forall i | n <= i < |targets| :: Untouched(p, q, targets[i])
    ensures StopsAfter(env, p, q, targets, size, supply, staleBefore, n)
  {
    hide Generous, Unowned, InTurn, ProcessingOrder, Blocked, Untouched;
  }

  /** The order of the first `|chunk| + m` targets begins with the first batch. */
  lemma OrderBegins(p: Pool, r: Pool, chunk: seq<nat>, rest: seq<nat>, m: nat, size: nat)
    requires size > 0 && chunk == Take(chunk + rest, size) && chunk != [] && m <= |rest| && SameShape(p.targets, r.targets)
    ensures ProcessingOrder(p.targets, chunk + rest[..m], size) ==
              LockedBatch(p.targets, set i | i in chunk, |p.targets|) + ProcessingOrder(r.targets, rest[..m], size)
  {
    var part := chunk + rest[..m];
    assert Take(part, size) == chunk && part[|chunk|..] == rest[..m];
    OrderAgrees(p.targets, r.targets, rest[..m], size);
    hide LockedBatch;
  }

  /** What is blocked later was blocked before. */
  lemma BlockedBefore(env: Env, p: Pool, r: Pool, q: Pool, targets: seq<nat>, chunk: seq<nat>, rest: seq<nat>, m: nat, size: nat, supply: Supply, staleBefore: int)
    requires size > 0 && targets == chunk + rest && chunk == Take(targets, size) && chunk != [] && m < |rest| && Whole(m, size) == m
    requires Blocked(env, q, Take(rest[m..], size), supply, staleBefore)
    ensures var n := |chunk| + m; n < |targets| && Whole(n, size) == n && Blocked(env, q, Take(targets[n..], size), supply, staleBefore)
  {
    assert |chunk| == size;
    assert targets[|chunk| + m..] == rest[m..];
    hide Blocked;
  }

  lemma UnfoldStops(env: Env, p: Pool, q: Pool, targets: seq<nat>, size: nat, supply: Supply, staleBefore: int, n: nat)
    requires size > 0 && Generous(p, supply) && StopsAfter(env, p, q, targets, size, supply, staleBefore, n)
    ensures n <= |targets| && |q.targets| == |p.targets| && Unowned(p, targets[..n], staleBefore)
    ensures InTurn(env, p, ProcessingOrder(p.targets, targets[..n], size), supply) == Some(q)
    ensures n < |targets| ==> Whole(n, size) == n && Blocked(env, q, Take(targets[n..], size), supply, staleBefore)
    ensures forall i | n <= i < |targets| :: Untouched(p, q, targets[i])
  {
    hide Generous, Unowned, InTurn, ProcessingOrder, Blocked, Untouched;
  }

  /** The refills of the first batch and those of the later ones. */
  lemma FirstThenLater(env: Env, p: Pool, r: Pool, q: Pool, chunk: seq<nat>, rest: seq<nat>, m: nat, size: nat, supply: Supply)
    requires size > 0 && Generous(p, supply) && Generous(r, supply) && m <= |rest| && SameShape(p.targets, r.targets)
    requires chunk == Take(chunk + rest, size) && chunk != []
    requires InTurn(env, p, LockedBatch(p.targets, set i | i in chunk, |p.targets|), supply) == Some(r)
    requires InTurn(env, r, ProcessingOrder(r.targets, rest[..m], size), supply) == Some(q)
    ensures InTurn(env, p, ProcessingOrder(p.targets, chunk + rest[..m], size), supply) == Some(q)
  {
    var batch := LockedBatch(p.targets, set i | i in chunk, |p.targets|);
    var later := ProcessingOrder(r.targets, rest[..m], size);
    OrderBegins(p, r, chunk, rest, m, size);
    hide *;
    InTurnChunks(env, p, batch, later, supply);
  }

  lemma LaterUntouched(p: Pool, r: Pool, q: Pool, targets: seq<nat>, chunk: seq<nat>, rest: seq<nat>, m: nat)
    requires targets == chunk + rest && m <= |rest| && |p.targets| == |r.targets|
    requires forall i | 0 <= i < |rest| :: Untouched(p, r, rest[i])
    requires forall i | m <= i < |rest| :: Untouched(r, q, rest[i])
    ensures forall i | |chunk| + m <= i < |targets| :: Untouched(p, q, targets[i])
  {
    hide Untouched;
    forall i | |chunk| + m <= i < |targets| ensures Untouched(p, q, targets[i]) {
      assert targets[i] == rest[i - |chunk|];
      UntouchedTransitive(p, r, q, rest[i - |chunk|]);
    }
  }

  lemma FirstCommitted(env: Env, p: Pool, r: Pool, q: Pool, targets: seq<nat>, chunk: seq<nat>, rest: seq<nat>, size: nat, supply: Supply,
                       now: int, staleBefore: int, m: nat)
    requires size > 0 && Generous(p, supply) && Offered(env, p, targets, supply)
    requires targets == chunk + rest && chunk == Take(targets, size) && chunk != []
    requires FillBatch(env, p, chunk, supply, now, staleBefore) == Some(r) && Generous(r, supply)
    requires StopsAfter(env, r, q, rest, size, supply, staleBefore, m)
    ensures StopsAfter(env, p, q, targets, size, supply, staleBefore, |chunk| + m)
  {
    var n := |chunk| + m;
    hide *;
    UnfoldStops(env, r, q, rest, size, supply, staleBefore, m);
    assert targets[..n] == chunk + rest[..m];
    CommittedBatch(env, p, chunk, supply, now, staleBefore);
    CommittedLeaves(env, p, chunk, rest, supply, now, staleBefore);
    FirstThenLater(env, p, r, q, chunk, rest, m, size, supply);
    RestIsFree(p, r, chunk, rest, m, staleBefore);
    if n < |targets| {
      BlockedBefore(env, p, r, q, targets, chunk, rest, m, size, supply, staleBefore);
    }
    LaterUntouched(p, r, q, targets, chunk, rest, m);
    FoldStops(env, p, q, targets, size, supply, staleBefore, n);
  }

  lemma RestIsFree(p: Pool, r: Pool, chunk: seq<nat>, rest: seq<nat>, m: nat, staleBefore: int)
    requires m <= |rest| && Unowned(p, chunk, staleBefore) && Unowned(r, rest[..m], staleBefore) && |r.targets| == |p.targets|
    requires forall t: nat | t < |p.targets| && t !in chunk :: r.targets[t] == p.targets[t]
    ensures Unowned(p, chunk + rest[..m], staleBefore)
  {
    UnownedBefore(p, r, chunk, rest[..m], staleBefore);
  }

  /** Every prefill, completed or not, ends in the refills in turn of the whole batches before
      the first blocked one, and has not touched any later target. */
  lemma {:induction false} PrefillStops(env: Env, p: Pool, targets: seq<nat>, size: nat, supply: Supply, now: int, staleBefore: int)
      returns (n: nat)
    requires size > 0 && Generous(p, supply) && Offered(env, p, targets, supply)
    ensures var (q, completed) := FillDirect(env, p, targets, size, supply, now, staleBefore);
            && StopsAfter(env, p, q, targets, size, supply, staleBefore, n)
            && (completed <==> n == |targets|)
    decreases |targets|
  {
    hide *;
    if targets == [] {
      n := 0;
      NothingToFill(env, p, size, supply, now, staleBefore);
      NothingToStop(env, p, size, supply, staleBefore);
    } else {
      var chunk, rest := FirstBatchOf(targets, size);
      DirectUnfolds(env, p, targets, chunk, rest, size, supply, now, staleBefore);
      var r := FillBatch(env, p, chunk, supply, now, staleBefore);
      if r.None? {
        n := 0;
        StopsAtOnce(env, p, targets, size, supply, now, staleBefore);
      } else {
        CommittedOffers(env, p, r.value, chunk, rest, supply, now, staleBefore);
        var m := PrefillStops(env, r.value, rest, size, supply, now, staleBefore);
        n := |chunk| + m;
        var q := FillDirect(env, r.value, rest, size, supply, now, staleBefore).0;
        FirstCommitted(env, p, r.value, q, targets, chunk, rest, size, supply, now, staleBefore, m);
      }
    }
  }

  lemma NothingToStop(env: Env, p: Pool, size: nat, supply: Supply, staleBefore: int)
    requires size > 0 && Generous(p, supply)
    ensures StopsAfter(env, p, p, [], size, supply, staleBefore, 0)
  {
    var none: seq<nat> := [];
    assert none[..0] == none;
  }

  lemma CommittedOffers(env: Env, p: Pool, r: Pool, chunk: seq<nat>, rest: seq<nat>, supply: Supply, now: int, staleBefore: int)
    requires Generous(p, supply) && Offered(env, p, chunk + rest, supply)
    requires FillBatch(env, p, chunk, supply, now, staleBefore) == Some(r)
    ensures Generous(r, supply) && Offered(env, r, rest, supply)
  {
    hide *;
    CommittedBatch(env, p, chunk, supply, now, staleBefore);
    CommittedLeaves(env, p, chunk, rest, supply, now, staleBefore);
  }
}
