/** An input on which the batch size of a prefill shows: the generator of the second target fails. */
module ProxyPrefillLimits {
  import opened Wrappers
  import opened Sequences
  import opened ProxyPool
  import opened ProxyPrefill
  import opened ProxyPrefillRefinement

  const NORTH := Scope(1, "P3", "US", "", "North")
  const SOUTH := Scope(1, "P3", "US", "", "South")
  const ROWS := [Target(NORTH, 1, 1, true, false, None), Target(SOUTH, 1, 1, true, false, None)]

  // ------------------------------------------------------------------ a failed generator

  const EMPTY := Pool(ROWS, [], [], [])

  function NorthOnly(t: nat): Option<seq<string>> {
    if t == 0 then Some(["x"]) else None
  }

  lemma NorthIsFresh(env: Env)
    requires env.repair(NORTH, "x") == "x"
    ensures Eligible(EMPTY, [0, 1]) && Generous(EMPTY, NorthOnly) && FreshSupply(env, EMPTY, [0, 1], NorthOnly) && Unowned(EMPTY, [0, 1], 0)
  {
    assert Lines(NorthOnly, 1) == [] && Lines(NorthOnly, 0) == ["x"];
    assert NORTH != SOUTH && EMPTY.targets[0].scope == NORTH && EMPTY.targets[0].targetCount == 1 && EMPTY.targets[1].scope == SOUTH;
    assert EMPTY.targets[0].active && EMPTY.targets[1].active && !Owned(EMPTY.targets[0], 0) && !Owned(EMPTY.targets[1], 0);
    hide Lines, Owned;
  }

  /** The pool once the first target is filled. */
  function OneLine(env: Env): Pool {
    EMPTY.(entries := [NewEntry(env, Row(0, "x"))])
  }

  lemma NorthCompletes(env: Env)
    ensures Refill(env, EMPTY, 0, Some(["x"])) == Done(OneLine(env))
  {
    var rows := RowsOf(0, ["x"][..1]);
    assert rows == [Row(0, "x")] && rows[1..] == [];
    assert InsertRows(env, [], rows) == InsertRows(env, [NewEntry(env, rows[0])], []);
    IdleFulfill(env, OneLine(env), 0);
    assert ClearClaim(ROWS, 0) == ROWS;
  }

  /** A batch with a target whose generator fails is not committed. */
  lemma MissingSupplyFails(env: Env, p: Pool, batch: seq<nat>, supply: Supply, now: int)
    requires Generous(p, supply) && batch != [] && batch == LockedBatch(p.targets, set i | i in batch, |p.targets|)
    requires BatchSupplied(p, batch, supply) && BatchRows(p, batch, supply).None?
    ensures FillBatch(env, p, batch, supply, now, 0).None?
  {
    FillBatchUnfolds(env, p, batch, supply, now, 0);
    hide FillBatch, LockedBatch, BatchRows, FulfillListed, WaitingScopes, Generous, BatchSupplied;
  }

  lemma SouthHasNoRows(env: Env, p: Pool)
    requires p == EMPTY || p == OneLine(env)
    ensures Generous(p, NorthOnly) && BatchSupplied(p, [1], NorthOnly) && BatchSupplied(p, [0, 1], NorthOnly)
    ensures BatchRows(p, [1], NorthOnly).None? && BatchRows(p, [0, 1], NorthOnly).None?
  {
    assert Stock(EMPTY.entries, {1}, 0) == [] && Stock(OneLine(env).entries, {1}, 0) == [] && Stock(OneLine(env).entries, {1}, 1) == [];
    assert Needed(p, 1) == 1;
    assert [0, 1][1..] == [1];
    GenerousSupplies(p, [0, 1], NorthOnly);
    GenerousSupplies(p, [1], NorthOnly);
  }

  lemma Locks(batch: seq<nat>)
    requires batch == [0] || batch == [1] || batch == [0, 1]
    ensures LockedBatch(ROWS, set i | i in batch, |ROWS|) == batch
  {
    assert |ROWS| == 2 && forall i | 0 <= i < 2 :: ROWS[i].active;
    hide *;
    ChunkIsItsBatch(ROWS, batch);
  }

  /** The first batch of one is committed as its refill. */
  lemma NorthIsCommitted(env: Env, now: int)
    requires env.repair(NORTH, "x") == "x"
    ensures Generous(EMPTY, NorthOnly) && FillBatch(env, EMPTY, [0], NorthOnly, now, 0) == Some(OneLine(env))
  {
    NorthIsFresh(env);
    Locks([0]);
    assert [0, 1] == [0] + [1];
    hide *;
    FirstBatch(env, EMPTY, [0], [1], NorthOnly, now, 0);
    NorthCompletes(env);
    SouthHasNoRows(env, OneLine(env));
    assert NorthOnly(0) == Some(["x"]) by {
      NorthOffers();
    }
    InTurnUnfolds(env, EMPTY, [0], NorthOnly);
    assert [0][1..] == [];
    EmptyTurn(env, OneLine(env), NorthOnly);
  }

  lemma NorthOffers()
    ensures NorthOnly(0) == Some(["x"])
  {
  }

  lemma ChunksOfTwo()
    ensures Take([0, 1], 1) == [0] && [0, 1][1..] == [1] && Take([1], 1) == [1] && [1][1..] == []
    ensures Take([0, 1], 2) == [0, 1] && [0, 1][2..] == []
  {
  }

  lemma OneByOneLeavesALine(env: Env, now: int)
    requires env.repair(NORTH, "x") == "x"
    ensures Generous(EMPTY, NorthOnly) && FillDirect(env, EMPTY, [0, 1], 1, NorthOnly, now, 0) == (OneLine(env), false)
  {
    ChunksOfTwo();
    Locks([1]);
    assert OneLine(env).targets == ROWS && |ROWS| == 2;
    hide *;
    NorthIsCommitted(env, now);
    SouthHasNoRows(env, OneLine(env));
    MissingSupplyFails(env, OneLine(env), [1], NorthOnly, now);
    DirectUnfolds(env, EMPTY, [0, 1], [0], [1], 1, NorthOnly, now, 0);
    DirectUnfolds(env, OneLine(env), [1], [1], [], 1, NorthOnly, now, 0);
  }

  lemma BothLeaveNothing(env: Env, now: int)
    ensures Generous(EMPTY, NorthOnly) && FillDirect(env, EMPTY, [0, 1], 2, NorthOnly, now, 0) == (EMPTY, false)
  {
    ChunksOfTwo();
    Locks([0, 1]);
    assert EMPTY.targets == ROWS && |ROWS| == 2;
    hide *;
    SouthHasNoRows(env, EMPTY);
    MissingSupplyFails(env, EMPTY, [0, 1], NorthOnly, now);
    DirectUnfolds(env, EMPTY, [0, 1], [0, 1], [], 2, NorthOnly, now, 0);
  }

  /** When a generator fails, batches committed before it stay, so a smaller size leaves more. */
  lemma FailureShowsTheSize(env: Env, now: int)
    requires env.repair(NORTH, "x") == "x"
    ensures Eligible(EMPTY, [0, 1]) && Generous(EMPTY, NorthOnly) && FreshSupply(env, EMPTY, [0, 1], NorthOnly) && Unowned(EMPTY, [0, 1], 0)
    ensures FillDirect(env, EMPTY, [0, 1], 1, NorthOnly, now, 0) == (OneLine(env), false)
    ensures FillDirect(env, EMPTY, [0, 1], 2, NorthOnly, now, 0) == (EMPTY, false)
  {
    hide *;
    NorthIsFresh(env);
    OneByOneLeavesALine(env, now);
    BothLeaveNothing(env, now);
  }

  lemma EmptyTurn(env: Env, p: Pool, supply: Supply)
    requires Generous(p, supply)
    ensures InTurn(env, p, [], supply) == Some(p)
  {
  }
}
