/** What every replay, and so every run of the sync loop, guarantees about operations and transfers. */
module ReplayFacts {
  import opened Prelude
  import opened StateRootHash
  import opened StateRootBuffers
  import opened StateRootFlush
  import opened TransferMatching
  import opened Ledger
  import opened Replay
  import opened SyncEngines

  // ---- How the blocks are cut into batches does not matter ----

  /** Two ways of cutting the same blocks into ranges leave the same protocol state, or both get stuck. */
  lemma CutsAgree(rules: Rules, chain: Chain, genesis: nat, w: World, a: seq<Range>, b: seq<Range>, from: nat)
    requires WellFormed(chain) && genesis <= from && a != [] && b != []
    requires Consecutive(a, from) && Consecutive(b, from) && End(a, from) == End(b, from)
    requires Replayed(rules, chain, genesis, from - 1) == Some(w)
    ensures var s, t := Batch(rules, chain, w, a), Batch(rules, chain, w, b);
      (s.Some? <==> t.Some?) && (s.Some? ==> s.value.world == t.value.world)
  {
    hide Batch, Replayed;
    BatchIsReplay(rules, chain, genesis, w, a, from);
    BatchIsReplay(rules, chain, genesis, w, b, from);
  }

  /** Two indexers of one chain that both recorded a checkpoint at a block recorded the same root there,
      and with the same cursor they hold the same rows, records and root. */
  lemma IndexersAgree(rules: Rules, chain: Chain, genesis: nat, a: Db, b: Db)
    requires Consistent(rules, chain, genesis, a) && Consistent(rules, chain, genesis, b)
    ensures forall block :: block in a.checkpoints && block in b.checkpoints ==>
      a.checkpoints[block] == b.checkpoints[block]
    ensures a.lastBlock == b.lastBlock ==>
      a.world == b.world && a.meta.stateRoot == b.meta.stateRoot && a.meta.assetCount == b.meta.assetCount
  {
    hide Replayed, TableRoot;
  }

  // ---- Every operation is decided exactly once ----

  function OperationIds(ops: seq<Operation>): set<string> { set op | op in ops :: op.operationId }

  function BlockIds(block: Block): set<string> { OperationIds(block.ops) + Ids(block.rejected) }

  /** No operation id occurs twice on the chain. */
  ghost predicate UniqueIds(chain: Chain) {
    forall b: nat :: UniqueIdsInBlock(chain, b)
  }

  ghost predicate UniqueOps(ops: seq<Operation>) {
    forall i, j :: 0 <= i < j < |ops| ==> ops[i].operationId != ops[j].operationId
  }

  ghost predicate UniqueIdsInBlock(chain: Chain, b: nat) {
    var block := chain.block(b);
    && UniqueOps(block.ops)
    && OperationIds(block.ops) !! Ids(block.rejected)
    && forall c: nat :: c != b ==> BlockIds(chain.block(b)) !! BlockIds(chain.block(c))
  }

  function IdsThrough(chain: Chain, genesis: nat, c: int): set<string>
    decreases c - genesis
  {
    if c < genesis then {} else IdsThrough(chain, genesis, c - 1) + BlockIds(chain.block(c))
  }

  /** Exactly the ids in `ids` have been decided, each in one way only. */
  ghost predicate DecidedOnce(w: World, ids: set<string>) {
    && w.confirmed + w.invalid == ids
    && w.confirmed !! w.invalid
    && w.orphaned <= w.invalid
  }

  lemma PerformDecides(rules: Rules, ts: seq<Transfer>, w: World, consumed: set<nat>, op: Operation, ids: set<string>)
    requires DecidedOnce(w, ids) && op.operationId !in ids
    ensures var s := Perform(rules, ts, w, consumed, op);
      !s.route.Fatal? ==> DecidedOnce(s.world, ids + {op.operationId})
  {
    hide RunHandler, PreHandlerPayment;
  }

  lemma PassOpDecides(rules: Rules, chain: Chain, s: Pass, op: Operation, ids: set<string>)
    requires DecidedOnce(s.world, ids) && op.operationId !in ids && PassOp(rules, chain, s, op).Some?
    ensures DecidedOnce(PassOp(rules, chain, s, op).value.world, ids + {op.operationId})
  {
    hide Perform, Sweep;
    var s' := Prepared(s, op.blockNum);
    assert DecidedOnce(s'.world, ids);
    if rules.accountRejection(op).None? {
      PerformDecides(rules, PoolTransfers(rules, chain, op), s'.world, Consumed(rules, s'.pools, op), op, ids);
    } else {
      assert DecidedOnce(RecordInvalid(s'.world, op), ids + {op.operationId});
    }
  }

  lemma NoOperationIds()
    ensures OperationIds([]) == {}
  {}

  lemma LastOperationId(ops: seq<Operation>)
    requires ops != [] && UniqueOps(ops)
    ensures var front, id := ops[..|ops| - 1], ops[|ops| - 1].operationId;
      UniqueOps(front) && id !in OperationIds(front) && OperationIds(ops) == OperationIds(front) + {id}
  {
    assert ops == ops[..|ops| - 1] + [ops[|ops| - 1]];
  }

  lemma {:induction false} PassOpsDecide(rules: Rules, chain: Chain, s: Pass, ops: seq<Operation>, ids: set<string>)
    requires DecidedOnce(s.world, ids) && OperationIds(ops) !! ids
    requires UniqueOps(ops) && PassOps(rules, chain, s, ops).Some?
    ensures DecidedOnce(PassOps(rules, chain, s, ops).value.world, ids + OperationIds(ops))
  {
    hide PassOp, DecidedOnce, OperationIds, UniqueOps;
    if ops == [] {
      assert ids + OperationIds([]) == ids by { NoOperationIds(); }
    } else {
      var front, op := ops[..|ops| - 1], ops[|ops| - 1];
      LastOperationId(ops);
      PassOpsDecide(rules, chain, s, front, ids);
      PassOpDecides(rules, chain, PassOps(rules, chain, s, front).value, op, ids + OperationIds(front));
      assert ids + OperationIds(front) + {op.operationId} == ids + OperationIds(ops);
    }
  }

  lemma IdsThroughEarlier(chain: Chain, genesis: nat, c: int, b: nat)
    requires UniqueIds(chain) && c < b
    ensures IdsThrough(chain, genesis, c) !! BlockIds(chain.block(b))
    decreases c - genesis
  {
    if c >= genesis {
      IdsThroughEarlier(chain, genesis, c - 1, b);
      assert UniqueIdsInBlock(chain, b);
    }
  }

  /** After any replay, the operations of all blocks so far have each been confirmed or recorded as
      invalid, never both, nothing else has, and only invalid operations are flagged as orphaned. */
  lemma {:induction false} EveryOperationDecidedOnce(rules: Rules, chain: Chain, genesis: nat, c: int)
    requires UniqueIds(chain) && Replayed(rules, chain, genesis, c).Some?
    ensures DecidedOnce(Replayed(rules, chain, genesis, c).value, IdsThrough(chain, genesis, c))
    decreases c - genesis
  {
    hide PassOps;
    if c >= genesis {
      EveryOperationDecidedOnce(rules, chain, genesis, c - 1);
      IdsThroughEarlier(chain, genesis, c - 1, c);
      assert UniqueIdsInBlock(chain, c);
      var w, ids := Replayed(rules, chain, genesis, c - 1).value, IdsThrough(chain, genesis, c - 1);
      PassOpsDecide(rules, chain, Pass(w, map[], Some(c), []), chain.block(c).ops, ids);
    }
  }

  // ---- No transfer pays twice ----

  function ClaimsOf(pools: Pools, txId: string): set<nat> { if txId in pools then pools[txId] else {} }

  /** The claims each operation of the transaction added, in order. */
  function ClaimsMade(rules: Rules, chain: Chain, s: Pass, ops: seq<Operation>, txId: string): seq<set<nat>>
    requires PassOps(rules, chain, s, ops).Some?
  {
    if ops == [] then [] else
      var front, op := ops[..|ops| - 1], ops[|ops| - 1];
      var before := PassOps(rules, chain, s, front).value;
      var after := PassOps(rules, chain, s, ops).value;
      ClaimsMade(rules, chain, s, front, txId)
      + if op.txId == txId then [ClaimsOf(after.pools, txId) - ClaimsOf(before.pools, txId)] else []
  }

  /** What each operation owed for what it did: nothing unless it was applied. */
  function Owed(rules: Rules, chain: Chain, s0: Pass, op: Operation): seq<Due> {
    var s := Prepared(s0, op.blockNum);
    if rules.accountRejection(op).Some? then []
    else Perform(rules, PoolTransfers(rules, chain, op), s.world, Consumed(rules, s.pools, op), op).dues
  }

  function DuesMade(rules: Rules, chain: Chain, s: Pass, ops: seq<Operation>, txId: string): seq<Due>
    requires PassOps(rules, chain, s, ops).Some?
  {
    if ops == [] then [] else
      var front, op := ops[..|ops| - 1], ops[|ops| - 1];
      DuesMade(rules, chain, s, front, txId)
      + if op.txId == txId then Owed(rules, chain, PassOps(rules, chain, s, front).value, op) else []
  }

  lemma PassOpSettles(rules: Rules, chain: Chain, s: Pass, op: Operation, txId: string, c: string)
    requires PassOp(rules, chain, s, op).Some?
    ensures var before, after := ClaimsOf(s.pools, txId), ClaimsOf(PassOp(rules, chain, s, op).value.pools, txId);
      && before <= after
      && (op.txId != txId ==> after == before)
      && (op.txId == txId ==>
            Carried(chain.transfers(txId), c, after - before) == DueIn(Owed(rules, chain, s, op), c))
  {
    hide Perform;
    var s' := Prepared(s, op.blockNum);
    CarriedNothing(chain.transfers(txId), c);
    var before := ClaimsOf(s.pools, txId);
    assert before - before == {};
    if rules.accountRejection(op).None? && op.txId == txId {
      var ts, consumed := PoolTransfers(rules, chain, op), Consumed(rules, s'.pools, op);
      OperationSettles(rules, ts, s'.world, consumed, op, c);
    }
  }

  ghost predicate PairwiseDisjoint(sets: seq<set<nat>>) {
    forall i, j :: 0 <= i < j < |sets| ==> sets[i] !! sets[j]
  }

  lemma {:induction false} PassSettles(
      rules: Rules, chain: Chain, s: Pass, ops: seq<Operation>, txId: string, c: string)
    requires PassOps(rules, chain, s, ops).Some?
    ensures var before, after := ClaimsOf(s.pools, txId), ClaimsOf(PassOps(rules, chain, s, ops).value.pools, txId);
      var claims := ClaimsMade(rules, chain, s, ops, txId);
      && before <= after
      && Carried(chain.transfers(txId), c, after - before) == DueIn(DuesMade(rules, chain, s, ops, txId), c)
      && PairwiseDisjoint(claims)
      && (forall k :: 0 <= k < |claims| ==> claims[k] <= after - before)
  {
    hide PassOp, Owed;
    var ts, before := chain.transfers(txId), ClaimsOf(s.pools, txId);
    if ops == [] {
      assert before - before == {};
      CarriedNothing(ts, c);
    } else {
      var front, op := ops[..|ops| - 1], ops[|ops| - 1];
      PassSettles(rules, chain, s, front, txId, c);
      var s' := PassOps(rules, chain, s, front).value;
      PassOpSettles(rules, chain, s', op, txId, c);
      var mid, after := ClaimsOf(s'.pools, txId), ClaimsOf(PassOps(rules, chain, s, ops).value.pools, txId);
      if op.txId == txId {
        assert after - before == (mid - before) + (after - mid);
        CarriedUnion(ts, c, mid - before, after - mid);
        DueInSum(DuesMade(rules, chain, s, front, txId), Owed(rules, chain, s', op), c);
      } else {
        assert DuesMade(rules, chain, s, front, txId) + [] == DuesMade(rules, chain, s, front, txId);
        assert ClaimsMade(rules, chain, s, front, txId) + [] == ClaimsMade(rules, chain, s, front, txId);
      }
    }
  }

  /** Over all operations that share a Hive transaction, whatever others run in between: no transfer is
      claimed by two of them, and in each currency what the applied ones owed together is what the claimed
      transfers carry, so never more than was transferred. */
  lemma NoTransferPaysTwice(rules: Rules, chain: Chain, s: Pass, ops: seq<Operation>, txId: string, c: string, all: set<nat>)
    requires s.pools == map[] && PassOps(rules, chain, s, ops).Some?
    requires forall t :: t in chain.transfers(txId) ==> t.amount >= 0
    requires forall i: nat :: i < |chain.transfers(txId)| ==> i in all
    ensures var consumed := ClaimsOf(PassOps(rules, chain, s, ops).value.pools, txId);
      && PairwiseDisjoint(ClaimsMade(rules, chain, s, ops, txId))
      && DueIn(DuesMade(rules, chain, s, ops, txId), c) == Carried(chain.transfers(txId), c, consumed)
      && DueIn(DuesMade(rules, chain, s, ops, txId), c) <= Carried(chain.transfers(txId), c, all)
  {
    hide PassOps, PairwiseDisjoint;
    PassSettles(rules, chain, s, ops, txId, c);
    var consumed := ClaimsOf(PassOps(rules, chain, s, ops).value.pools, txId);
    assert consumed - {} == consumed;
    CarriedAtMostAll(chain.transfers(txId), c, consumed, all);
  }
}
