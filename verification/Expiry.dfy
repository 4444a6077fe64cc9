/** How long a reservation lasts: what replay and batches do to pending sales as blocks go by.
    (packages/indexer/src/db/queries/asset-mutations.ts, packages/indexer/src/scanner/sync-engine.ts) */
module Expiry {
  import opened Prelude
  import opened TransferMatching
  import opened Ledger
  import opened Replay

  /** Reserved for a buyer, up to and including block `e`. */
  predicate PendingUntil(a: Asset, e: nat) { a.sale.PendingSale? && a.sale.expiresBlock == Some(e) }

  /** The reservations that expired before `block` are back on the listing, and nothing else is different. */
  ghost predicate Released(t: Tables, t': Tables, block: int) {
    && t'.aux == t.aux && t'.assets.Keys == t.assets.Keys
    && forall id :: id in t.assets ==>
         if exists e: nat :: PendingUntil(t.assets[id], e) && e < block
         then t'.assets[id] == Asset(t.assets[id].row, Listed, t.assets[id].other)
         else t'.assets[id] == t.assets[id]
  }

  lemma SweepReleases(t: Tables, block: int)
    ensures Released(t, Sweep(t, block), block)
  {
    var t' := Sweep(t, block);
    forall id | id in t.assets
      ensures if exists e: nat :: PendingUntil(t.assets[id], e) && e < block
              then t'.assets[id] == Asset(t.assets[id].row, Listed, t.assets[id].other)
              else t'.assets[id] == t.assets[id]
    {
      var a := t.assets[id];
      if a.sale.PendingSale? && a.sale.expiresBlock.Some? { assert PendingUntil(a, a.sale.expiresBlock.value); }
    }
  }

  // ---- What an operation is carried out on ----

  /** The operation, carried out on these tables. */
  function ActedOn(rules: Rules, chain: Chain, s: Pass, op: Operation, tables: Tables): Option<Pass> {
    var w := s.world.(tables := tables);
    if rules.accountRejection(op).Some? then
      Some(Pass(w.(invalid := w.invalid + {op.operationId}), s.pools, Some(op.blockNum), s.muts))
    else
      var step := Perform(rules, PoolTransfers(rules, chain, op), w, Consumed(rules, s.pools, op), op);
      if step.route.Fatal? then None
      else
        Some(Pass(step.world, if Enriched(rules, op) then s.pools[op.txId := step.consumed] else s.pools,
                  Some(op.blockNum), s.muts + step.muts))
  }

  /** As the pass left them, but with the reservations released that expired before the operation's block. */
  ghost predicate InTime(s: Pass, tables: Tables, op: Operation) {
    if s.sweptThrough == Some(op.blockNum) then tables == s.world.tables
    else Released(s.world.tables, tables, op.blockNum)
  }

  ghost predicate ShowsAsset(s: Pass, tables: Tables, id: string)
    requires id in s.world.tables.assets
  {
    id in tables.assets && tables.assets[id] == s.world.tables.assets[id]
  }

  /** The first operation of a block is carried out on tables from which exactly the reservations that
      expired before the block have been released; later ones on what the earlier ones left. */
  lemma OperationSees(rules: Rules, chain: Chain, s: Pass, op: Operation)
    ensures exists tables :: InTime(s, tables, op) && PassOp(rules, chain, s, op) == ActedOn(rules, chain, s, op, tables)
  {
    hide Perform, Sweep, Released;
    var tables := Prepared(s, op.blockNum).world.tables;
    SweepReleases(s.world.tables, op.blockNum);
    assert PassOp(rules, chain, s, op) == ActedOn(rules, chain, s, op, tables);
  }

  /** A reservation that has not run out by the operation's block is there when the operation is carried out. */
  lemma ReservationIsSeen(rules: Rules, chain: Chain, s: Pass, op: Operation, id: string, e: nat)
    requires id in s.world.tables.assets && PendingUntil(s.world.tables.assets[id], e) && op.blockNum <= e
    ensures exists tables :: ShowsAsset(s, tables, id) && PassOp(rules, chain, s, op) == ActedOn(rules, chain, s, op, tables)
  {
    hide PassOp, ActedOn;
    OperationSees(rules, chain, s, op);
    var tables :| InTime(s, tables, op) && PassOp(rules, chain, s, op) == ActedOn(rules, chain, s, op, tables);
    assert ShowsAsset(s, tables, id);
  }

  // ---- At the end of a block ----

  /** After a block no reservation is left that ended with it or before. */
  ghost predicate NoneOverdue(t: Tables, c: int) {
    forall id, e: nat :: id in t.assets && PendingUntil(t.assets[id], e) ==> e > c
  }

  lemma ReleasedLeavesNoneOverdue(t: Tables, t': Tables, block: int)
    requires Released(t, t', block)
    ensures NoneOverdue(t', block - 1)
  {
    forall id, e: nat | id in t'.assets && PendingUntil(t'.assets[id], e) ensures e >= block {
      assert PendingUntil(t'.assets[id], e);
    }
  }

  /** Whatever the operations do. */
  lemma ReplayLeavesNoneOverdue(rules: Rules, chain: Chain, genesis: nat, c: int)
    requires Replayed(rules, chain, genesis, c).Some?
    ensures NoneOverdue(Replayed(rules, chain, genesis, c).value.tables, c)
  {
    hide PassOps, Sweep, Released, NoneOverdue;
    if c >= genesis {
      var w := Replayed(rules, chain, genesis, c - 1).value;
      var s := PassOps(rules, chain, Pass(w, map[], Some(c), []), chain.block(c).ops).value;
      SweepReleases(s.world.tables, c + 1);
      ReleasedLeavesNoneOverdue(s.world.tables, Sweep(s.world.tables, c + 1), c + 1);
    } else {
      NoneOverdueWithoutAssets(GENESIS_WORLD.tables, c);
    }
  }

  lemma NoneOverdueWithoutAssets(t: Tables, c: int)
    requires t.assets == map[]
    ensures NoneOverdue(t, c)
  {}

  lemma BatchLeavesNoneOverdue(rules: Rules, chain: Chain, w: World, ranges: seq<Range>)
    requires ranges != [] && Batch(rules, chain, w, ranges).Some?
    ensures NoneOverdue(Batch(rules, chain, w, ranges).value.world.tables, ranges[|ranges| - 1].to)
  {
    hide PassRanges, Sweep, Released, NoneOverdue;
    var s, last := PassRanges(rules, chain, Start(w), ranges).value, ranges[|ranges| - 1].to;
    SweepReleases(s.world.tables, last + 1);
    ReleasedLeavesNoneOverdue(s.world.tables, Sweep(s.world.tables, last + 1), last + 1);
  }

  /** A block without operations releases what ends with it and records what the parser refused. */
  lemma QuietBlock(rules: Rules, chain: Chain, genesis: nat, c: int)
    requires c >= genesis && chain.block(c).ops == [] && Replayed(rules, chain, genesis, c - 1).Some?
    ensures Replayed(rules, chain, genesis, c).Some?
    ensures var w, w' := Replayed(rules, chain, genesis, c - 1).value, Replayed(rules, chain, genesis, c).value;
      && Released(w.tables, w'.tables, c + 1)
      && w'.confirmed == w.confirmed && w'.orphaned == w.orphaned
      && forall id :: id in w'.invalid <==> id in w.invalid || id in chain.block(c).rejected
  {
    hide Sweep, Released;
    SweepReleases(Replayed(rules, chain, genesis, c - 1).value.tables, c + 1);
  }

  // ---- A reservation that nobody touches ----

  predicate Touches(e: Effect, id: string) {
    match e
    case Put(a) => a.row.id == id
    case Remove(other) => other == id
    case SetSale(other, _) => other == id
    case _ => false
  }

  /** Whatever the operation is shown, its handler does nothing to this asset. */
  ghost predicate LeavesAlone(rules: Rules, op: Operation, id: string) {
    forall v, k :: 0 <= k < |rules.handler(op, v).effects| ==> !Touches(rules.handler(op, v).effects[k], id)
  }

  lemma {:induction false} EffectsLeaveAlone(
      blockNum: nat, ts: seq<Transfer>, w: Work, effects: seq<Effect>, id: string, a: Asset)
    requires forall k :: 0 <= k < |effects| ==> !Touches(effects[k], id)
    requires RunEffects(blockNum, ts, w, effects).Ok? && id in w.tables.assets && w.tables.assets[id] == a
    ensures var t := RunEffects(blockNum, ts, w, effects).value.tables; id in t.assets && t.assets[id] == a
    decreases |effects|
  {
    hide Plan;
    if effects != [] {
      EffectsLeaveAlone(blockNum, ts, RunEffect(blockNum, ts, w, effects[0]).value, effects[1..], id, a);
    }
  }

  lemma PerformLeavesAlone(
      rules: Rules, ts: seq<Transfer>, w: World, consumed: set<nat>, op: Operation, id: string, a: Asset)
    requires LeavesAlone(rules, op, id) && id in w.tables.assets && w.tables.assets[id] == a
    ensures var t := Perform(rules, ts, w, consumed, op).world.tables; id in t.assets && t.assets[id] == a
  {
    hide RunEffects, PreHandlerPayment;
    var payment := PreHandlerPayment(rules, ts, consumed, op);
    if payment.Ok? && RunHandler(rules, ts, w.tables, consumed, payment.value, op).Ok? {
      EffectsLeaveAlone(op.blockNum, HandlerTransfers(rules, op, ts), Work(w.tables, consumed, [], []),
                        rules.handler(op, View(w.tables, ts, consumed, payment.value)).effects, id, a);
    }
  }

  lemma PassOpLeavesAlone(rules: Rules, chain: Chain, s: Pass, op: Operation, id: string, e: nat)
    requires LeavesAlone(rules, op, id) && op.blockNum <= e && PassOp(rules, chain, s, op).Some?
    requires id in s.world.tables.assets && PendingUntil(s.world.tables.assets[id], e)
    ensures var t := PassOp(rules, chain, s, op).value.world.tables;
      id in t.assets && t.assets[id] == s.world.tables.assets[id]
  {
    hide Perform, PassOp, LeavesAlone, PendingUntil;
    ReservationIsSeen(rules, chain, s, op, id, e);
    var tables :| ShowsAsset(s, tables, id) && PassOp(rules, chain, s, op) == ActedOn(rules, chain, s, op, tables);
    PerformLeavesAlone(rules, PoolTransfers(rules, chain, op), s.world.(tables := tables),
                       Consumed(rules, s.pools, op), op, id, tables.assets[id]);
  }

  /** Operations up to its last block that leave a reservation alone leave it pending. */
  lemma {:induction false} PassOpsLeaveAlone(rules: Rules, chain: Chain, s: Pass, ops: seq<Operation>, id: string, e: nat)
    requires forall op :: op in ops ==> LeavesAlone(rules, op, id) && op.blockNum <= e
    requires id in s.world.tables.assets && PendingUntil(s.world.tables.assets[id], e)
    requires PassOps(rules, chain, s, ops).Some?
    ensures var t := PassOps(rules, chain, s, ops).value.world.tables;
      id in t.assets && t.assets[id] == s.world.tables.assets[id]
  {
    hide PassOp, LeavesAlone, PendingUntil;
    if ops != [] {
      var front := ops[..|ops| - 1];
      PassOpsLeaveAlone(rules, chain, s, front, id, e);
      PassOpLeavesAlone(rules, chain, PassOps(rules, chain, s, front).value, ops[|ops| - 1], id, e);
    }
  }

  ghost predicate BlocksLeaveAlone(rules: Rules, chain: Chain, c: int, d: int, id: string) {
    forall b: nat, op :: c < b <= d && op in chain.block(b).ops ==> LeavesAlone(rules, op, id)
  }

  lemma BlockKeepsReservation(rules: Rules, chain: Chain, w: World, b: nat, id: string, e: nat)
    requires WellFormed(chain) && ReplayBlock(rules, chain, w, b).Some?
    requires forall op :: op in chain.block(b).ops ==> LeavesAlone(rules, op, id)
    requires id in w.tables.assets && PendingUntil(w.tables.assets[id], e) && b <= e
    ensures var t, a := ReplayBlock(rules, chain, w, b).value.tables, w.tables.assets[id];
      id in t.assets && t.assets[id] == if b < e then a else Asset(a.row, Listed, a.other)
  {
    hide PassOps, LeavesAlone, Sweep;
    assert WellFormedBlock(chain, b);
    var s := Pass(w, map[], Some(b), []);
    PassOpsLeaveAlone(rules, chain, s, chain.block(b).ops, id, e);
    var t := PassOps(rules, chain, s, chain.block(b).ops).value.world.tables;
    SweepReleases(t, b + 1);
    assert PendingUntil(t.assets[id], e);
  }

  lemma {:induction false} QuietOnceListed(rules: Rules, chain: Chain, s: Pass, ops: seq<Operation>, id: string)
    requires forall op :: op in ops ==> LeavesAlone(rules, op, id)
    requires id in s.world.tables.assets && !s.world.tables.assets[id].sale.PendingSale?
    requires PassOps(rules, chain, s, ops).Some?
    ensures var t := PassOps(rules, chain, s, ops).value.world.tables;
      id in t.assets && t.assets[id] == s.world.tables.assets[id]
  {
    hide Perform, LeavesAlone, Sweep;
    if ops != [] {
      var front, op := ops[..|ops| - 1], ops[|ops| - 1];
      QuietOnceListed(rules, chain, s, front, id);
      var s' := PassOps(rules, chain, s, front).value;
      SweepReleases(s'.world.tables, op.blockNum);
      var seen := Prepared(s', op.blockNum);
      PerformLeavesAlone(rules, PoolTransfers(rules, chain, op), seen.world, Consumed(rules, seen.pools, op), op, id,
                         seen.world.tables.assets[id]);
    }
  }

  /** A reservation that no operation touches stays exactly as it is through the block it names, and is
      the same asset back on the listing from the end of that block on. */
  lemma {:induction false} ReservationLasts(
      rules: Rules, chain: Chain, genesis: nat, c: int, d: int, id: string, e: nat)
    requires WellFormed(chain) && genesis - 1 <= c <= d && BlocksLeaveAlone(rules, chain, c, d, id)
    requires Replayed(rules, chain, genesis, c).Some? && Replayed(rules, chain, genesis, d).Some?
    requires var w := Replayed(rules, chain, genesis, c).value;
      id in w.tables.assets && PendingUntil(w.tables.assets[id], e)
    ensures var a, t := Replayed(rules, chain, genesis, c).value.tables.assets[id],
                        Replayed(rules, chain, genesis, d).value.tables;
      id in t.assets && t.assets[id] == if d < e then a else Asset(a.row, Listed, a.other)
    decreases d - c
  {
    hide LeavesAlone, PassOps, Sweep;
    ReplayLeavesNoneOverdue(rules, chain, genesis, c);
    if c < d {
      ReservationLasts(rules, chain, genesis, c, d - 1, id, e);
      var w := Replayed(rules, chain, genesis, d - 1).value;
      if d - 1 < e {
        BlockKeepsReservation(rules, chain, w, d, id, e);
      } else {
        var s := Pass(w, map[], Some(d), []);
        QuietOnceListed(rules, chain, s, chain.block(d).ops, id);
        SweepReleases(PassOps(rules, chain, s, chain.block(d).ops).value.world.tables, d + 1);
      }
    }
  }
}
