/** The sync loop: fetch ranges, process them in one transaction, advance the cursor.
    (packages/indexer/src/scanner/sync-engine.ts) */
module SyncEngines {
  import opened Prelude
  import opened StateRootHash
  import opened StateRootBuffers
  import opened StateRootFlush
  import opened TransferMatching
  import opened Ledger
  import opened Router
  import opened Replay

  const MASSIVE_THRESHOLD := 100
  const MAX_CONTINUITY_FAILURES := 3
  const IRREVERSIBLE_REGRESSION_TOLERANCE := 3
  const STATE_CHECKPOINT_INTERVAL_BLOCKS := 1000

  // ---- Durable state ----

  datatype Db = Db(world: World, meta: StateMeta, checkpoints: map<nat, Root>, lastBlock: nat)

  const EMPTY_DB := Db(GENESIS_WORLD, EMPTY_META, map[], 0)

  ghost function RootOf(rules: Rules, w: World): Root {
    TableRoot(rules.hash, Rows(w.tables.assets))
  }

  /** Every checkpoint holds the root that the replay has at its block. */
  ghost predicate CheckpointsAgree(rules: Rules, chain: Chain, genesis: nat, checkpoints: map<nat, Root>) {
    forall b :: b in checkpoints ==>
      && b > 0 && b % STATE_CHECKPOINT_INTERVAL_BLOCKS == 0
      && Replayed(rules, chain, genesis, b).Some?
      && checkpoints[b] == RootOf(rules, Replayed(rules, chain, genesis, b).value)
  }

  /** The database is what a plain replay of the chain up to its cursor would have left. */
  ghost predicate Consistent(rules: Rules, chain: Chain, genesis: nat, db: Db) {
    && (db.lastBlock == 0 || db.lastBlock >= genesis - 1)
    && Replayed(rules, chain, genesis, db.lastBlock) == Some(db.world)
    && Keyed(db.world.tables.assets)
    && Describes(rules.hash, db.meta, Rows(db.world.tables.assets))
    && CheckpointsAgree(rules, chain, genesis, db.checkpoints)
  }

  /** `updateLastBlock`: the cursor only moves forward. */
  function Advance(lastBlock: nat, to: nat): nat { if lastBlock < to then to else lastBlock }

  /** `recordCheckpointIfBoundary`: an existing row is left untouched. */
  function RecordCheckpoint(checkpoints: map<nat, Root>, block: nat, root: Root): map<nat, Root> {
    if block <= 0 || block % STATE_CHECKPOINT_INTERVAL_BLOCKS != 0 || block in checkpoints then checkpoints
    else checkpoints[block := root]
  }

  /** A checkpoint at `block` exactly when it is a positive multiple of 1000 or was there before, and all
      earlier checkpoints as they were. */
  ghost predicate BoundaryRecorded(before: map<nat, Root>, after: map<nat, Root>, block: nat, root: Root) {
    && (forall b :: b in before ==> b in after && after[b] == before[b])
    && (forall b :: b in after && b !in before ==> b == block && after[b] == root)
    && (block in after <==> block in before || (block > 0 && block % 1000 == 0))
  }

  lemma RecordsBoundary(checkpoints: map<nat, Root>, block: nat, root: Root)
    ensures BoundaryRecorded(checkpoints, RecordCheckpoint(checkpoints, block, root), block, root)
  {}

  // ---- What the environment decides in one turn of the loop ----

  datatype Turn = Turn(
    restored: Option<Db>,                  // the database was replaced by another consistent one
    range1Fetched: bool,
    range2Fetched: bool,
    accountsLookedUp: bool,
    lockHeld: bool,
    fenceFree: bool,
    health: Operation -> Infrastructure,   // how the database fares under each operation
    committed: bool)                       // the transaction reached COMMIT

  /** One round of the outer loop, possibly in a process that has just been started again. */
  datatype Cycle = Cycle(restarted: bool, irreversible: nat, turns: seq<Turn>)

  /** An operator may only put back a database that some consistent indexer had. */
  ghost predicate RestoresConsistently(rules: Rules, chain: Chain, genesis: nat, turns: seq<Turn>) {
    forall t :: t in turns && t.restored.Some? ==>
      Consistent(rules, chain, genesis, t.restored.value) && t.restored.value.lastBlock >= genesis - 1
  }

  /** Nothing goes wrong in this turn. */
  ghost predicate Cooperative(t: Turn) {
    && t.restored.None? && t.range1Fetched && t.accountsLookedUp && t.lockHeld && t.fenceFree && t.committed
    && AllHealthy(t.health)
  }

  ghost predicate AllHealthy(health: Operation -> Infrastructure) {
    forall op :: health(op).Healthy?
  }

  ghost predicate AllCooperative(turns: seq<Turn>) {
    forall t :: t in turns ==> Cooperative(t)
  }

  ghost predicate NothingRestored(turns: seq<Turn>) {
    forall t :: t in turns ==> t.restored.None?
  }

  datatype CycleResult = Idle | CaughtUp | Stopped | Failed(reason: string)

  // ---- The buffer of a pass tracks the asset rows ----

  ghost predicate RowsTracked(base: Table, s: Pass) {
    && Keyed(s.world.tables.assets)
    && ExactAll(base, s.muts)
    && WithMutations(base, s.muts) == Rows(s.world.tables.assets)
  }

  lemma {:induction false} MutationsInTwo(t: Table, a: seq<BufferedMutation>, b: seq<BufferedMutation>)
    requires ExactAll(t, a) && ExactAll(WithMutations(t, a), b)
    ensures ExactAll(t, a + b) && WithMutations(t, a + b) == WithMutations(WithMutations(t, a), b)
  {
    if b == [] { assert a + b == a; } else {
      MutationsInTwo(t, a, b[..|b| - 1]);
      assert (a + b)[..|a + b| - 1] == a + b[..|b| - 1];
    }
  }

  lemma PassOpTracksRows(rules: Rules, chain: Chain, base: Table, s0: Pass, op: Operation)
    requires RowsTracked(base, s0) && PassOp(rules, chain, s0, op).Some?
    ensures RowsTracked(base, PassOp(rules, chain, s0, op).value)
  {
    hide Perform, Sweep;
    SweepKeepsRows(s0.world.tables, op.blockNum);
    var s := Prepared(s0, op.blockNum);
    if rules.accountRejection(op).None? {
      var ts, consumed := PoolTransfers(rules, chain, op), Consumed(rules, s.pools, op);
      MutationsMatchRows(rules, ts, s.world, consumed, op);
      MutationsInTwo(base, s.muts, Perform(rules, ts, s.world, consumed, op).muts);
    }
  }

  lemma {:induction false} PassOpsTrackRows(rules: Rules, chain: Chain, base: Table, s: Pass, ops: seq<Operation>)
    requires RowsTracked(base, s) && PassOps(rules, chain, s, ops).Some?
    ensures RowsTracked(base, PassOps(rules, chain, s, ops).value)
  {
    if ops != [] {
      PassOpsTrackRows(rules, chain, base, s, ops[..|ops| - 1]);
      PassOpTracksRows(rules, chain, base, PassOps(rules, chain, s, ops[..|ops| - 1]).value, ops[|ops| - 1]);
    }
  }

  lemma {:induction false} PassRangesTrackRows(rules: Rules, chain: Chain, base: Table, s: Pass, ranges: seq<Range>)
    requires RowsTracked(base, s) && PassRanges(rules, chain, s, ranges).Some?
    ensures RowsTracked(base, PassRanges(rules, chain, s, ranges).value)
  {
    if ranges != [] {
      PassRangesTrackRows(rules, chain, base, s, ranges[..|ranges| - 1]);
      var s', r := PassRanges(rules, chain, s, ranges[..|ranges| - 1]).value, ranges[|ranges| - 1];
      var rejected := Ids(RangeRejected(chain, r.from, r.to + 1));
      PassOpsTrackRows(rules, chain, base,
                       s'.(world := s'.world.(invalid := s'.world.invalid + rejected), pools := map[]),
                       RangeOps(chain, r.from, r.to + 1));
    }
  }

  lemma BatchTracksRows(rules: Rules, chain: Chain, w: World, ranges: seq<Range>)
    requires ranges != [] && Keyed(w.tables.assets) && Batch(rules, chain, w, ranges).Some?
    ensures RowsTracked(Rows(w.tables.assets), Batch(rules, chain, w, ranges).value)
  {
    PassRangesTrackRows(rules, chain, Rows(w.tables.assets), Start(w), ranges);
    SweepKeepsRows(PassRanges(rules, chain, Start(w), ranges).value.world.tables, ranges[|ranges| - 1].to + 1);
  }

  // ---- A committed batch keeps the database consistent ----

  /** The database a batch leaves behind, given the flushed summary. */
  function Committed(db: Db, world: World, meta: StateMeta, to: nat): Db {
    Db(world, meta, RecordCheckpoint(db.checkpoints, to, meta.stateRoot), Advance(db.lastBlock, to))
  }

  lemma RecordedCheckpointAgrees(rules: Rules, chain: Chain, genesis: nat, checkpoints: map<nat, Root>, to: nat, root: Root)
    requires CheckpointsAgree(rules, chain, genesis, checkpoints)
    requires Replayed(rules, chain, genesis, to).Some?
    requires root == RootOf(rules, Replayed(rules, chain, genesis, to).value)
    ensures CheckpointsAgree(rules, chain, genesis, RecordCheckpoint(checkpoints, to, root))
  {}

  lemma CommitKeepsConsistency(rules: Rules, chain: Chain, genesis: nat, db: Db, ranges: seq<Range>, s: Pass, meta: StateMeta)
    requires WellFormed(chain) && 1 <= genesis <= db.lastBlock + 1
    requires Consistent(rules, chain, genesis, db)
    requires ranges != [] && Consecutive(ranges, db.lastBlock + 1)
    requires Batch(rules, chain, db.world, ranges) == Some(s)
    requires Describes(rules.hash, meta, Rows(s.world.tables.assets))
    ensures Consistent(rules, chain, genesis, Committed(db, s.world, meta, End(ranges, db.lastBlock + 1)))
    ensures End(ranges, db.lastBlock + 1) > db.lastBlock
  {
    hide Replayed, Batch, TableRoot, WellFormed;
    var to := End(ranges, db.lastBlock + 1);
    ConsecutiveStartsAt(ranges[..|ranges| - 1], db.lastBlock + 1);
    assert Replayed(rules, chain, genesis, to) == Some(s.world) by {
      BatchIsReplay(rules, chain, genesis, db.world, ranges, db.lastBlock + 1);
    }
    assert Keyed(s.world.tables.assets) by { BatchTracksRows(rules, chain, db.world, ranges); }
    RecordedCheckpointAgrees(rules, chain, genesis, db.checkpoints, to, meta.stateRoot);
  }

  /** Before the first block, the cursor may be moved up to the block before genesis. */
  lemma CursorInitialised(rules: Rules, chain: Chain, genesis: nat, db: Db)
    requires genesis >= 1 && Consistent(rules, chain, genesis, db) && db.lastBlock == 0
    ensures Consistent(rules, chain, genesis, db.(lastBlock := Advance(0, genesis - 1)))
  {}

  lemma CursorInRange(rules: Rules, chain: Chain, genesis: nat, db: Db)
    requires Consistent(rules, chain, genesis, db)
    ensures db.lastBlock == 0 || db.lastBlock >= genesis - 1
  {}

  // ---- Fetching ----

  /** A fetched range with the transfer pools its operations share, one per Hive transaction. */
  datatype FetchedBatch = FetchedBatch(
    range: Range, ops: seq<Operation>, rejected: seq<string>, pools: map<string, TransferPool>)

  ghost predicate PoolsApart(pools: map<string, TransferPool>) {
    forall t, u :: t in pools && u in pools && t != u ==> pools[t] != pools[u]
  }

  /** The pools hold the chain's transfers, and the claims recorded in `claims`. */
  ghost predicate PoolsHold(chain: Chain, pools: map<string, TransferPool>, claims: Pools)
    reads pools.Values
  {
    && claims.Keys <= pools.Keys
    && forall t :: t in pools ==>
         && pools[t].transfers == chain.transfers(t)
         && pools[t].consumed == if t in claims then claims[t] else {}
  }

  /** Every operation that needs transfers has its transaction's pool, and no two transactions share one. */
  ghost predicate Pooled(rules: Rules, b: FetchedBatch) {
    && (forall op :: op in b.ops && Enriched(rules, op) ==> op.txId in b.pools)
    && PoolsApart(b.pools)
  }

  ghost predicate Fetched(rules: Rules, chain: Chain, b: FetchedBatch) {
    && b.range.from <= b.range.to
    && b.ops == RangeOps(chain, b.range.from, b.range.to + 1)
    && b.rejected == RangeRejected(chain, b.range.from, b.range.to + 1)
    && Pooled(rules, b)
  }

  class SyncEngine {
    const rules: Rules
    const chain: Chain
    const genesis: nat
    const blockRange: nat
    var db: Db
    var running: bool
    var lastKnownIrreversibleBlock: nat

    ghost predicate Valid()
      reads this
    {
      && WellFormed(chain) && genesis >= 1 && blockRange >= 1
      && Consistent(rules, chain, genesis, db)
    }

    constructor (rules: Rules, chain: Chain, genesis: nat, blockRange: nat)
      requires WellFormed(chain) && genesis >= 1 && blockRange >= 1
      ensures Valid() && db == EMPTY_DB
      ensures this.rules == rules && this.chain == chain && this.genesis == genesis && this.blockRange == blockRange
    {
      this.rules, this.chain, this.genesis, this.blockRange := rules, chain, genesis, blockRange;
      db, running, lastKnownIrreversibleBlock := EMPTY_DB, true, 0;
      EmptyTableRoot(rules.hash);
      assert Rows(map[]) == map[];
    }

    /** Read-only: the range's operations, and a fresh pool for every transaction that needs one. */
    method FetchBatch(range: Range) returns (b: FetchedBatch)
      requires range.from <= range.to
      ensures Fetched(rules, chain, b) && b.range == range
      ensures fresh(b.pools.Values) && PoolsHold(chain, b.pools, map[])
    {
      var ops := RangeOps(chain, range.from, range.to + 1);
      var pools: map<string, TransferPool> := map[];
      for i := 0 to |ops|
        invariant fresh(pools.Values) && PoolsHold(chain, pools, map[]) && PoolsApart(pools)
        invariant forall k :: 0 <= k < i && Enriched(rules, ops[k]) ==> ops[k].txId in pools
      {
        var txId := ops[i].txId;
        if Enriched(rules, ops[i]) && txId !in pools {
          var pool := new TransferPool(chain.transfers(txId));
          var pools' := pools[txId := pool];
          assert pools'.Values <= pools.Values + {pool};
          pools := pools';
        }
      }
      return FetchedBatch(range, ops, RangeRejected(chain, range.from, range.to + 1), pools);
    }

    /** One operation of a batch; `s` is the pass so far, and false means the batch must be abandoned. */
    method ProcessOperation(tx: BatchTransaction, b: FetchedBatch, op: Operation, sweptThrough: Option<nat>,
                            health: Operation -> Infrastructure, ghost s: Pass)
      returns (ok: bool, swept: Option<nat>)
      requires Pooled(rules, b) && op in b.ops
      requires tx.rules == rules && tx.buffer.Valid() && Mirrors(tx.world, tx.buffer.State(), sweptThrough, s)
      requires PoolsHold(chain, b.pools, s.pools)
      modifies tx`world, tx.buffer, b.pools.Values
      ensures tx.buffer.Valid()
      ensures ok ==>
        && PassOp(rules, chain, s, op).Some?
        && Mirrors(tx.world, tx.buffer.State(), swept, PassOp(rules, chain, s, op).value)
        && PoolsHold(chain, b.pools, PassOp(rules, chain, s, op).value.pools)
      ensures health(op).Healthy? && PassOp(rules, chain, s, op).Some? ==> ok
    {
      hide Perform, QueuedAll, PoolsApart, Enriched;
      swept := sweptThrough;
      if swept != Some(op.blockNum) {
        tx.world := tx.world.(tables := Sweep(tx.world.tables, op.blockNum));
        swept := Some(op.blockNum);
      }
      if rules.accountRejection(op).Some? {
        tx.world := RecordInvalid(tx.world, op);
        return true, swept;
      }
      ghost var claims := Consumed(rules, s.pools, op);
      ghost var step := Perform(rules, PoolTransfers(rules, chain, op), tx.world, claims, op);
      ok := RouteWithPool(tx, b, op, health(op), s.pools, step);
      QueuedInTwo(EMPTY_BUFFER, s.muts, step.muts);
      return ok, swept;
    }

    /** Hand the operation to the router with its transaction's pool, or with an empty one of its own. */
    method RouteWithPool(tx: BatchTransaction, b: FetchedBatch, op: Operation, health: Infrastructure,
                         ghost claims: Pools, ghost step: Step)
      returns (ok: bool)
      requires Enriched(rules, op) ==> op.txId in b.pools
      requires PoolsApart(b.pools) && PoolsHold(chain, b.pools, claims)
      requires tx.rules == rules && tx.buffer.Valid()
      requires step == Perform(rules, PoolTransfers(rules, chain, op), tx.world, Consumed(rules, claims, op), op)
      modifies tx`world, tx.buffer, b.pools.Values
      ensures tx.buffer.Valid()
      ensures ok ==> RoutedAs(step, tx.world, old(tx.buffer.State()), tx.buffer.State())
      ensures ok ==> PoolsHold(chain, b.pools, if Enriched(rules, op) then claims[op.txId := step.consumed] else claims)
      ensures health.Healthy? && !step.route.Fatal? ==> ok
    {
      hide Perform, RoutedAs, QueuedAll;
      if !Enriched(rules, op) {
        var none := new TransferPool([]);
        ok := RouteInto(tx, none, op, health, step);
        return;
      }
      var pool := b.pools[op.txId];
      ok := RouteInto(tx, pool, op, health, step);
      if ok {
        forall t | t in b.pools && t != op.txId
          ensures b.pools[t].consumed == if t in claims then claims[t] else {}
        {
          assert b.pools[t] != pool;
        }
      }
    }

    method RouteInto(tx: BatchTransaction, pool: TransferPool, op: Operation, health: Infrastructure, ghost step: Step)
      returns (ok: bool)
      requires tx.rules == rules && tx.buffer.Valid()
      requires step == Perform(rules, pool.transfers, tx.world, pool.consumed, op)
      modifies tx`world, tx.buffer, pool
      ensures tx.buffer.Valid()
      ensures ok ==> RoutedAs(step, tx.world, old(tx.buffer.State()), tx.buffer.State())
      ensures ok ==> pool.consumed == step.consumed
      ensures health.Healthy? && !step.route.Fatal? ==> ok
    {
      var route := tx.RouteOperationDetailed(op, pool, health);
      ok := !route.Fatal?;
    }

    method RecordParserRejections(tx: BatchTransaction, rejected: seq<string>)
      modifies tx`world
      ensures tx.world == old(tx.world).(invalid := old(tx.world).invalid + Ids(rejected))
    {
      for i := 0 to |rejected|
        invariant tx.world == old(tx.world).(invalid := old(tx.world).invalid + Ids(rejected[..i]))
      {
        tx.world := tx.world.(invalid := tx.world.invalid + {rejected[i]});
        assert Ids(rejected[..i + 1]) == Ids(rejected[..i]) + {rejected[i]};
      }
      assert rejected[..|rejected|] == rejected;
    }

    method ProcessOperations(tx: BatchTransaction, b: FetchedBatch, sweptThrough: Option<nat>,
                             health: Operation -> Infrastructure, ghost s: Pass)
      returns (ok: bool, swept: Option<nat>)
      requires Pooled(rules, b)
      requires tx.rules == rules && tx.buffer.Valid() && Mirrors(tx.world, tx.buffer.State(), sweptThrough, s)
      requires PoolsHold(chain, b.pools, s.pools)
      modifies tx`world, tx.buffer, b.pools.Values
      ensures tx.buffer.Valid()
      ensures ok ==> PassedTo(PassOps(rules, chain, s, b.ops), tx.world, tx.buffer.State(), swept)
      ensures AllHealthy(health) && PassOps(rules, chain, s, b.ops).Some? ==> ok
    {
      hide PassOp, RangeOps, Perform;
      ghost var p := s;
      swept := sweptThrough;
      for i := 0 to |b.ops|
        invariant tx.buffer.Valid() && Mirrors(tx.world, tx.buffer.State(), swept, p)
        invariant PoolsHold(chain, b.pools, p.pools)
        invariant PassOps(rules, chain, s, b.ops[..i]) == Some(p)
      {
        assert b.ops[..i + 1][..i] == b.ops[..i];
        ok, swept := ProcessOperation(tx, b, b.ops[i], swept, health, p);
        if !ok {
          StuckAt(rules, chain, s, b.ops, i + 1);
          return;
        }
        p := PassOp(rules, chain, p, b.ops[i]).value;
      }
      assert b.ops[..|b.ops|] == b.ops;
      return true, swept;
    }

    /** One fetched range inside the transaction. */
    method ProcessRange(tx: BatchTransaction, b: FetchedBatch, sweptThrough: Option<nat>,
                        health: Operation -> Infrastructure, ghost s: Pass)
      returns (ok: bool, swept: Option<nat>)
      requires Fetched(rules, chain, b)
      requires tx.rules == rules && tx.buffer.Valid() && Mirrors(tx.world, tx.buffer.State(), sweptThrough, s)
      requires PoolsHold(chain, b.pools, map[])
      modifies tx`world, tx.buffer, b.pools.Values
      ensures tx.buffer.Valid()
      ensures ok ==> PassedTo(PassRange(rules, chain, s, b.range), tx.world, tx.buffer.State(), swept)
      ensures AllHealthy(health) && PassRange(rules, chain, s, b.range).Some? ==> ok
    {
      RecordParserRejections(tx, b.rejected);
      ghost var start := s.(world := tx.world, pools := map[]);
      ok, swept := ProcessOperations(tx, b, sweptThrough, health, start);
    }

    /** The ranges one after the other; skipped altogether when nothing was fetched in any of them. */
    method ProcessBatches(tx: BatchTransaction, batches: seq<FetchedBatch>, health: Operation -> Infrastructure)
      returns (ok: bool)
      requires FetchedApart(rules, chain, batches)
      requires forall b :: b in batches ==> PoolsHold(chain, b.pools, map[])
      requires tx.rules == rules && tx.buffer.Valid() && tx.buffer.State() == EMPTY_BUFFER
      modifies tx`world, tx.buffer, PoolObjects(batches)
      ensures tx.buffer.Valid()
      ensures ok ==> BatchedTo(PassRanges(rules, chain, Start(old(tx.world)), Ranges(batches)), tx.world, tx.buffer.State())
      ensures AllHealthy(health) && PassRanges(rules, chain, Start(old(tx.world)), Ranges(batches)).Some? ==> ok
    {
      hide PassRange, PassRanges, Ranges, Fetched, AllHealthy, QueuedAll, PoolsApart, Consumed;
      NothingQueued(EMPTY_BUFFER);
      NothingPassed(rules, chain, Start(tx.world), batches);
      if forall b :: b in batches ==> |b.ops| == 0 && |b.rejected| == 0 {
        QuietBatches(rules, chain, old(tx.world), batches);
        return true;
      }
      var swept := None;
      ghost var s := Start(tx.world);
      for i := 0 to |batches|
        invariant tx.buffer.Valid() && Mirrors(tx.world, tx.buffer.State(), swept, s)
        invariant PassRanges(rules, chain, Start(old(tx.world)), Ranges(batches)[..i]) == Some(s)
        invariant forall j :: i <= j < |batches| ==> PoolsHold(chain, batches[j].pools, map[])
      {
        LastRangePassed(rules, chain, Start(old(tx.world)), batches, i);
        ok, swept := ProcessRange(tx, batches[i], swept, health, s);
        if !ok {
          StuckInRange(rules, chain, Start(old(tx.world)), Ranges(batches), i + 1);
          return;
        }
        s := PassRange(rules, chain, s, batches[i].range).value;
      }
      assert Ranges(batches)[..|batches|] == Ranges(batches);
      return true;
    }

    /** Everything the transaction does before it flushes: the ranges in order, then the boundary sweep. */
    method RunBatch(tx: BatchTransaction, batches: seq<FetchedBatch>, health: Operation -> Infrastructure)
      returns (ok: bool)
      requires batches != [] && FetchedApart(rules, chain, batches)
      requires forall b :: b in batches ==> PoolsHold(chain, b.pools, map[])
      requires tx.rules == rules && tx.buffer.Valid() && tx.buffer.State() == EMPTY_BUFFER
      modifies tx`world, tx.buffer, PoolObjects(batches)
      ensures tx.buffer.Valid()
      ensures ok ==> BatchedTo(Batch(rules, chain, old(tx.world), Ranges(batches)), tx.world, tx.buffer.State())
      ensures AllHealthy(health) && Batch(rules, chain, old(tx.world), Ranges(batches)).Some? ==> ok
    {
      ok := ProcessBatches(tx, batches, health);
      ghost var s := PassRanges(rules, chain, Start(old(tx.world)), Ranges(batches));
      tx.world := tx.world.(tables := Sweep(tx.world.tables, batches[|batches| - 1].range.to + 1));
      if ok { BoundarySweep(rules, chain, old(tx.world), Ranges(batches), s, tx.world, tx.buffer.State()); }
    }

    /** Flush, checkpoint, cursor and COMMIT, which may still fail as a whole. */
    method CommitBatch(tx: BatchTransaction, ranges: seq<Range>, reachesCommit: bool, ghost batch: Pass)
      returns (committed: bool)
      requires Valid() && db.lastBlock >= genesis - 1
      requires ranges != [] && Consecutive(ranges, db.lastBlock + 1)
      requires Batch(rules, chain, db.world, ranges) == Some(batch)
      requires tx.buffer.Valid() && BatchedTo(Some(batch), tx.world, tx.buffer.State())
      modifies this`db, tx.buffer
      ensures Valid() && committed == reachesCommit
      ensures db.lastBlock == if committed then End(ranges, 0) else old(db.lastBlock)
      ensures committed ==>
        db.world == batch.world && BoundaryRecorded(old(db.checkpoints), db.checkpoints, End(ranges, 0), db.meta.stateRoot)
      ensures !committed ==> db == old(db)
    {
      hide Batch, Replayed, TableRoot, Tracks, KeyedById, Describes, CheckpointsAgree, QueuedAll, WellFormed, BoundaryRecorded;
      var last := ranges[|ranges| - 1].to;
      TrackedByBuffer(rules, chain, db.world, ranges);
      var meta, atCommit := FlushBeforeCommit(rules.hash, tx.buffer, db.meta);
      if !reachesCommit { return false; }
      CommitKeepsConsistency(rules, chain, genesis, db, ranges, batch, meta);
      RecordsBoundary(db.checkpoints, last, atCommit.stateRoot);
      db := Committed(db, tx.world, atCommit, last);
      return true;
    }

    /** The batch transaction: fence, ranges in order, boundary sweep, flush, checkpoint, cursor, COMMIT.
        It takes effect as a whole or leaves the database as it was. */
    method WriteBatch(batches: seq<FetchedBatch>, turn: Turn) returns (committed: bool)
      requires Valid() && db.lastBlock >= genesis - 1
      requires batches != [] && Consecutive(Ranges(batches), db.lastBlock + 1)
      requires FetchedApart(rules, chain, batches)
      requires forall b :: b in batches ==> PoolsHold(chain, b.pools, map[])
      modifies this`db, PoolObjects(batches)
      ensures Valid()
      ensures db.lastBlock == if committed then batches[|batches| - 1].range.to else old(db.lastBlock)
      ensures committed ==>
        BoundaryRecorded(old(db.checkpoints), db.checkpoints, batches[|batches| - 1].range.to, db.meta.stateRoot)
      ensures !committed ==> db == old(db)
      ensures Cooperative(turn) && Batch(rules, chain, old(db.world), Ranges(batches)).Some? ==> committed
    {
      hide Replayed, PassRanges, RangeOps, RangeRejected, TableRoot, Fetched, PoolsHold, BoundaryRecorded;
      if !turn.fenceFree { return false; }
      var tx := new BatchTransaction(rules, db.world);
      var ok := RunBatch(tx, batches, turn.health);
      if !ok { return false; }
      committed := CommitBatch(tx, Ranges(batches), turn.committed,
                               Batch(rules, chain, db.world, Ranges(batches)).value);
    }

    /** The first range must be fetched; a second one, during a massive sync, is best effort. */
    method FetchRanges(current: nat, range1End: nat, irreversible: nat, isMassive: bool, turn: Turn)
      returns (batches: seq<FetchedBatch>)
      requires blockRange >= 1 && current <= range1End <= irreversible
      ensures batches != [] ==>
        && FetchedApart(rules, chain, batches) && Consecutive(Ranges(batches), current)
        && current <= batches[|batches| - 1].range.to <= irreversible
      ensures batches != [] <==> turn.range1Fetched
      ensures batches != [] ==>
        && batches[0].range == Range(current, range1End)
        && (|batches| == 2 <==> isMassive && range1End < irreversible && turn.range2Fetched)
        && (|batches| == 2 ==> batches[1].range == Range(range1End + 1, Min(range1End + blockRange, irreversible)))
      ensures fresh(PoolObjects(batches)) && forall b :: b in batches ==> PoolsHold(chain, b.pools, map[])
    {
      hide Fetched, RangeOps, RangeRejected;
      if !turn.range1Fetched { return []; }
      var batch1 := FetchBatch(Range(current, range1End));
      batches := [batch1];
      if isMassive && range1End < irreversible && turn.range2Fetched {
        var batch2 := FetchBatch(Range(range1End + 1, Min(range1End + blockRange, irreversible)));
        batches := [batch1, batch2];
      }
      ConsecutiveBatches(batches, current);
    }

    /** One turn past the continuity check. */
    method FetchAndWrite(current: nat, range1End: nat, irreversible: nat, isMassive: bool, turn: Turn)
      returns (failure: Option<string>, last: nat)
      requires Valid() && current == db.lastBlock + 1 >= genesis && current <= range1End <= irreversible
      modifies this`db
      ensures Valid()
      ensures failure.Some? ==> db == old(db)
      ensures failure.None? ==> current <= last == db.lastBlock <= irreversible
      ensures Cooperative(turn) && Replayed(rules, chain, genesis, irreversible).Some? ==> failure.None?
    {
      hide Consistent, Fetched, PoolsHold, WellFormed, SeparatePools, Consecutive;
      var batches := FetchRanges(current, range1End, irreversible, isMassive, turn);
      if batches == [] { return Some("range 1 fetch failed"), 0; }
      if !turn.accountsLookedUp { return Some("account lookup failed"), 0; }
      if !turn.lockHeld { return Some("advisory lock lost before batch write"), 0; }
      DecidedBatch(rules, chain, genesis, db, Ranges(batches), irreversible);
      var committed := WriteBatch(batches, turn);
      if !committed { return Some("batch rolled back"), 0; }
      return None, batches[|batches| - 1].range.to;
    }

    /** The batch loop from `start` on. Each turn reads the cursor, sets `current` back to it if it has
        fallen behind, refuses to go on if it has run ahead, and otherwise writes one batch. */
    method AdvanceTo(start: nat, irreversible: nat, isMassive: bool, turns: seq<Turn>) returns (r: CycleResult)
      requires Valid() && genesis <= start == db.lastBlock + 1 <= irreversible
      requires RestoresConsistently(rules, chain, genesis, turns)
      modifies this`db, this`running
      ensures Valid() && !r.Idle?
      ensures r.CaughtUp? ==> db.lastBlock == irreversible
      ensures NothingRestored(turns) ==> old(db.lastBlock) <= db.lastBlock <= irreversible
      ensures old(running) && AllCooperative(turns) && |turns| >= irreversible - old(db.lastBlock) ==>
        Replayed(rules, chain, genesis, irreversible).Some? ==> r.CaughtUp?
    {
      hide Consistent, WellFormed, RestoresConsistently, AllCooperative, NothingRestored, Cooperative;
      var current := start;
      var continuityFailures := 0;
      var next := 0;
      while current <= irreversible && running
        invariant Valid() && db.lastBlock >= genesis - 1 && next <= |turns| && current >= 1
        invariant current > irreversible ==> db.lastBlock == irreversible
        invariant NothingRestored(turns) ==>
          old(db.lastBlock) <= db.lastBlock <= irreversible && current == db.lastBlock + 1
        invariant old(running) && AllCooperative(turns) && |turns| >= irreversible - old(db.lastBlock) ==>
          running && current == db.lastBlock + 1 && |turns| - next >= irreversible - db.lastBlock
        decreases |turns| - next
      {
        if next == |turns| { running := false; return Stopped; }
        var turn := turns[next];
        WhatTurnsBring(rules, chain, genesis, turns, next);
        next := next + 1;
        if turn.restored.Some? { db := turn.restored.value; }

        var range1End := Min(current + blockRange - 1, irreversible);
        var expectedStart := db.lastBlock + 1;
        if expectedStart > current { return Failed("BLOCK CONTINUITY VIOLATION"); }
        if expectedStart < current {
          continuityFailures := continuityFailures + 1;
          if continuityFailures >= MAX_CONTINUITY_FAILURES { return Failed("backward reset too often"); }
          current := expectedStart;
          continue;
        }
        continuityFailures := 0;
        var failure, last := FetchAndWrite(current, range1End, irreversible, isMassive, turn);
        if failure.Some? { return Failed(failure.value); }
        current := last + 1;
      }
      if current > irreversible { return CaughtUp; }
      return Stopped;
    }

    /** One cycle against a consensus head. Whatever each turn brings - range fetches that fail, account
        lookups that fail, a lost lock, an occupied fence, a database that fails under any operation, a
        crash before COMMIT, a database replaced by an older or newer consistent one - the database stays
        what a plain replay up to its cursor would have left; and when nothing of the kind happens, a
        running process with a turn for every missing block catches up. */
    method SyncCycle(irreversible: nat, turns: seq<Turn>) returns (r: CycleResult)
      requires Valid() && RestoresConsistently(rules, chain, genesis, turns)
      modifies this
      ensures Valid()
      ensures r.CaughtUp? ==> db.lastBlock == irreversible
      ensures r.Idle? ==> db.lastBlock >= irreversible
      ensures var regressed := old(lastKnownIrreversibleBlock) > 0
          && irreversible + IRREVERSIBLE_REGRESSION_TOLERANCE < old(lastKnownIrreversibleBlock);
        && (regressed ==> r.Failed? && db.world == old(db.world))
        && lastKnownIrreversibleBlock ==
             if regressed then old(lastKnownIrreversibleBlock) else Max(old(lastKnownIrreversibleBlock), irreversible)
      ensures NothingRestored(turns) ==>
        old(db.lastBlock) <= db.lastBlock <= Max(Max(old(db.lastBlock), genesis - 1), irreversible)
      ensures (old(running) && AllCooperative(turns) && |turns| >= irreversible
               && irreversible + IRREVERSIBLE_REGRESSION_TOLERANCE >= old(lastKnownIrreversibleBlock)) ==>
        Replayed(rules, chain, genesis, irreversible).Some? ==> r.CaughtUp? || r.Idle?
    {
      hide Consistent, WellFormed, RestoresConsistently, AllCooperative, NothingRestored;
      CursorInRange(rules, chain, genesis, db);
      var lastBlock := db.lastBlock;
      if lastBlock == 0 {
        lastBlock := genesis - 1;
        CursorInitialised(rules, chain, genesis, db);
        db := db.(lastBlock := Advance(db.lastBlock, lastBlock));
      }
      if lastKnownIrreversibleBlock > 0
         && irreversible < lastKnownIrreversibleBlock - IRREVERSIBLE_REGRESSION_TOLERANCE {
        return Failed("irreversible block regressed");
      }
      if irreversible > lastKnownIrreversibleBlock { lastKnownIrreversibleBlock := irreversible; }
      var behind := irreversible - lastBlock;
      if behind <= 0 { return Idle; }
      r := AdvanceTo(lastBlock + 1, irreversible, behind > MASSIVE_THRESHOLD, turns);
    }

    /** The outer loop over any number of cycles, failed ones included, and process restarts. */
    method SyncLoop(cycles: seq<Cycle>)
      requires Valid()
      requires forall c :: c in cycles ==> RestoresConsistently(rules, chain, genesis, c.turns)
      modifies this
      ensures Valid()
      ensures (forall c :: c in cycles ==> NothingRestored(c.turns)) ==> old(db.lastBlock) <= db.lastBlock
    {
      hide Consistent, WellFormed, RestoresConsistently, NothingRestored, AllCooperative;
      for i := 0 to |cycles|
        invariant Valid()
        invariant (forall c :: c in cycles ==> NothingRestored(c.turns)) ==> old(db.lastBlock) <= db.lastBlock
      {
        if cycles[i].restarted { running, lastKnownIrreversibleBlock := true, 0; }
        if running {
          var result := SyncCycle(cycles[i].irreversible, cycles[i].turns);
        }
      }
    }
  }

  lemma NothingQueued(s: BufferState)
    requires s.entries.Valid()
    ensures QueuedAll(s, []) == s
  {}

  lemma WhatTurnsBring(rules: Rules, chain: Chain, genesis: nat, turns: seq<Turn>, k: nat)
    requires k < |turns| && RestoresConsistently(rules, chain, genesis, turns)
    ensures turns[k].restored.Some? ==>
      Consistent(rules, chain, genesis, turns[k].restored.value) && turns[k].restored.value.lastBlock >= genesis - 1
    ensures NothingRestored(turns) ==> turns[k].restored.None?
    ensures AllCooperative(turns) ==> Cooperative(turns[k]) && turns[k].restored.None?
  {}

  lemma StuckAt(rules: Rules, chain: Chain, s: Pass, ops: seq<Operation>, n: nat)
    requires n <= |ops|
    ensures PassOps(rules, chain, s, ops[..n]).None? ==> PassOps(rules, chain, s, ops).None?
  {
    hide PassOp;
    PassOpsInTwo(rules, chain, s, ops[..n], ops[n..]);
    assert ops[..n] + ops[n..] == ops;
  }

  lemma NothingPassed(rules: Rules, chain: Chain, s: Pass, batches: seq<FetchedBatch>)
    ensures |Ranges(batches)| == |batches| && PassRanges(rules, chain, s, Ranges(batches)[..0]) == Some(s)
  {}

  lemma LastRangePassed(rules: Rules, chain: Chain, s: Pass, batches: seq<FetchedBatch>, i: nat)
    requires i < |batches|
    ensures |Ranges(batches)| == |batches|
    ensures PassRanges(rules, chain, s, Ranges(batches)[..i + 1]) ==
      match PassRanges(rules, chain, s, Ranges(batches)[..i])
      case None => None
      case Some(s') => PassRange(rules, chain, s', batches[i].range)
  {
    hide PassRange;
    assert Ranges(batches)[..i + 1][..i] == Ranges(batches)[..i];
  }

  lemma {:induction false} StuckInRange(rules: Rules, chain: Chain, s: Pass, ranges: seq<Range>, n: nat)
    requires n <= |ranges|
    ensures PassRanges(rules, chain, s, ranges[..n]).None? ==> PassRanges(rules, chain, s, ranges).None?
    decreases |ranges|
  {
    hide PassRange;
    if n < |ranges| {
      assert ranges[..|ranges| - 1][..n] == ranges[..n];
      StuckInRange(rules, chain, s, ranges[..|ranges| - 1], n);
    } else {
      assert ranges[..n] == ranges;
    }
  }

  /** When the replay gets past the last block of a batch, so does the batch. */
  lemma DecidedBatch(rules: Rules, chain: Chain, genesis: nat, db: Db, ranges: seq<Range>, irreversible: nat)
    requires WellFormed(chain) && 1 <= genesis <= db.lastBlock + 1 && Consistent(rules, chain, genesis, db)
    requires ranges != [] && Consecutive(ranges, db.lastBlock + 1) && ranges[|ranges| - 1].to <= irreversible
    ensures Replayed(rules, chain, genesis, irreversible).Some? ==> Batch(rules, chain, db.world, ranges).Some?
  {
    hide Batch, Consecutive, WellFormed;
    BatchIsReplay(rules, chain, genesis, db.world, ranges, db.lastBlock + 1);
    if Batch(rules, chain, db.world, ranges).None? {
      ReplayStaysUndecided(rules, chain, genesis, ranges[|ranges| - 1].to, irreversible);
    }
  }

  function Ranges(batches: seq<FetchedBatch>): seq<Range> {
    seq(|batches|, i requires 0 <= i < |batches| => batches[i].range)
  }

  function PoolObjects(batches: seq<FetchedBatch>): set<TransferPool> {
    set b, p | b in batches && p in b.pools.Values :: p
  }

  /** No pool object is shared by two fetched ranges. */
  ghost predicate SeparatePools(batches: seq<FetchedBatch>) {
    forall i, j :: 0 <= i < j < |batches| ==> batches[i].pools.Values !! batches[j].pools.Values
  }

  ghost predicate FetchedApart(rules: Rules, chain: Chain, batches: seq<FetchedBatch>) {
    && (forall b :: b in batches ==> Fetched(rules, chain, b))
    && SeparatePools(batches)
  }

  lemma ConsecutiveBatches(batches: seq<FetchedBatch>, from: nat)
    requires 1 <= |batches| <= 2
    requires batches[0].range.from == from <= batches[0].range.to
    requires |batches| == 2 ==> batches[1].range.from == batches[0].range.to + 1 <= batches[1].range.to
    ensures Consecutive(Ranges(batches), from)
  {
    var ranges := Ranges(batches);
    assert ranges[..|ranges| - 1][..0] == [];
    if |batches| == 2 {
      assert ranges[..1] == [batches[0].range] && [batches[0].range][..0] == [];
      assert Consecutive([], from) && Consecutive([batches[0].range], from);
    }
  }

  lemma BoundarySweep(rules: Rules, chain: Chain, w: World, ranges: seq<Range>, s: Option<Pass>,
                      world: World, buffer: BufferState)
    requires ranges != [] && PassRanges(rules, chain, Start(w), ranges) == s && s.Some?
    requires world == s.value.world.(tables := Sweep(s.value.world.tables, ranges[|ranges| - 1].to + 1))
    requires buffer == QueuedAll(EMPTY_BUFFER, s.value.muts)
    ensures BatchedTo(Batch(rules, chain, w, ranges), world, buffer)
  {}

  /** With nothing fetched, passing over the ranges changes nothing. */
  lemma {:induction false} QuietBatches(rules: Rules, chain: Chain, w: World, batches: seq<FetchedBatch>)
    requires forall b :: b in batches ==> Fetched(rules, chain, b) && b.ops == [] && b.rejected == []
    ensures var s := PassRanges(rules, chain, Start(w), Ranges(batches));
      s.Some? && s.value.world == w && s.value.muts == []
  {
    if batches != [] {
      var front, last := batches[..|batches| - 1], batches[|batches| - 1];
      QuietBatches(rules, chain, w, front);
      assert Ranges(batches)[..|batches| - 1] == Ranges(front);
      var s := PassRanges(rules, chain, Start(w), Ranges(front)).value;
      assert Ids([]) == {} && s.world.invalid + {} == s.world.invalid;
      assert PassOps(rules, chain, s.(pools := map[]), []) == Some(s.(pools := map[]));
    }
  }

  lemma TrackedByBuffer(rules: Rules, chain: Chain, w: World, ranges: seq<Range>)
    requires ranges != [] && Keyed(w.tables.assets) && Batch(rules, chain, w, ranges).Some?
    ensures var s := Batch(rules, chain, w, ranges).value;
      && KeyedById(Rows(s.world.tables.assets))
      && Tracks(Rows(w.tables.assets), Rows(s.world.tables.assets), QueuedAll(EMPTY_BUFFER, s.muts).entries)
  {
    BatchTracksRows(rules, chain, w, ranges);
    TracksNothing(Rows(w.tables.assets));
    QueueAllKeepsTracking(Rows(w.tables.assets), Rows(w.tables.assets), EMPTY_BUFFER,
                          Batch(rules, chain, w, ranges).value.muts);
  }

  /** The open transaction is where the pass says: rows, last sweep, and queued changes. */
  ghost predicate Mirrors(world: World, buffer: BufferState, swept: Option<nat>, s: Pass) {
    world == s.world && swept == s.sweptThrough && buffer == QueuedAll(EMPTY_BUFFER, s.muts)
  }

  /** The pass went through, and the open transaction is where it says. */
  ghost predicate PassedTo(s: Option<Pass>, world: World, buffer: BufferState, swept: Option<nat>) {
    s.Some? && Mirrors(world, buffer, swept, s.value)
  }

  ghost predicate BatchedTo(s: Option<Pass>, world: World, buffer: BufferState) {
    s.Some? && world == s.value.world && buffer == QueuedAll(EMPTY_BUFFER, s.value.muts)
  }

  ghost predicate RoutedAs(step: Step, world: World, before: BufferState, after: BufferState)
    requires before.entries.Valid()
  {
    !step.route.Fatal? && world == step.world && after == QueuedAll(before, step.muts)
  }
}
