/** Batches of blocks, and the plain per-block replay they must agree with.
    (packages/indexer/src/scanner/sync-engine.ts) */
module Replay {
  import opened Prelude
  import opened StateRootHash
  import opened StateRootBuffers
  import opened StateRootFlush
  import opened TransferMatching
  import opened Ledger

  /** What the parser makes of one block: valid operations in order, and ids it rejected. */
  datatype Block = Block(ops: seq<Operation>, rejected: seq<string>)

  /** The irreversible chain: its blocks and the transfers of each Hive transaction. */
  datatype Chain = Chain(block: nat -> Block, transfers: string -> seq<Transfer>)

  /** Operations carry their block number, and a Hive transaction lies in one block. */
  ghost predicate WellFormed(chain: Chain) {
    forall b: nat :: WellFormedBlock(chain, b)
  }

  ghost predicate WellFormedBlock(chain: Chain, b: nat) {
    && (forall op :: op in chain.block(b).ops ==> op.blockNum == b)
    && (forall c: nat :: c != b ==> TxIds(chain.block(b)) !! TxIds(chain.block(c)))
  }

  function TxIds(block: Block): set<string> { set op | op in block.ops :: op.txId }

  // ---- Expiry sweeps ----

  function SweptAsset(a: Asset, block: int): Asset {
    if a.sale.PendingSale? && a.sale.expiresBlock.Some? && a.sale.expiresBlock.value < block
    then a.(sale := Listed) else a
  }

  /** Return every reservation that expired before `block` to the listing. */
  function Sweep(t: Tables, block: int): Tables {
    t.(assets := map id | id in t.assets :: SweptAsset(t.assets[id], block))
  }

  lemma SweepsCompose(t: Tables, x: int, y: int)
    ensures Sweep(Sweep(t, x), y) == Sweep(t, Max(x, y))
  {}

  lemma SweepKeepsRows(t: Tables, x: int)
    ensures Rows(Sweep(t, x).assets) == Rows(t.assets)
    ensures Keyed(t.assets) ==> Keyed(Sweep(t, x).assets)
  {}

  // ---- One pass over a list of operations, as the batch transaction makes it ----

  type Pools = map<string, set<nat>>

  datatype Pass = Pass(world: World, pools: Pools, sweptThrough: Option<nat>, muts: seq<BufferedMutation>)

  function PoolTransfers(rules: Rules, chain: Chain, op: Operation): seq<Transfer> {
    if Enriched(rules, op) then chain.transfers(op.txId) else []
  }

  function Consumed(rules: Rules, pools: Pools, op: Operation): set<nat> {
    if Enriched(rules, op) && op.txId in pools then pools[op.txId] else {}
  }

  /** Sweep once before the first operation of a block. */
  function Prepared(s: Pass, block: nat): Pass {
    if s.sweptThrough == Some(block) then s
    else s.(world := s.world.(tables := Sweep(s.world.tables, block)), sweptThrough := Some(block))
  }

  /** None when the operation ends fatally, which abandons the whole batch. */
  function PassOp(rules: Rules, chain: Chain, s0: Pass, op: Operation): Option<Pass> {
    var s := Prepared(s0, op.blockNum);
    if rules.accountRejection(op).Some? then Some(s.(world := RecordInvalid(s.world, op)))
    else
      var step := Perform(rules, PoolTransfers(rules, chain, op), s.world, Consumed(rules, s.pools, op), op);
      if step.route.Fatal? then None
      else
        Some(Pass(
               step.world,
               if Enriched(rules, op) then s.pools[op.txId := step.consumed] else s.pools,
               s.sweptThrough,
               s.muts + step.muts))
  }

  function PassOps(rules: Rules, chain: Chain, s: Pass, ops: seq<Operation>): Option<Pass> {
    if ops == [] then Some(s)
    else
      match PassOps(rules, chain, s, ops[..|ops| - 1])
      case None => None
      case Some(s') => PassOp(rules, chain, s', ops[|ops| - 1])
  }

  lemma {:induction false} PassOpsInTwo(rules: Rules, chain: Chain, s: Pass, a: seq<Operation>, b: seq<Operation>)
    ensures var first := PassOps(rules, chain, s, a);
      PassOps(rules, chain, s, a + b) ==
        if first.None? then None else PassOps(rules, chain, first.value, b)
  {
    if b == [] { assert a + b == a; } else {
      PassOpsInTwo(rules, chain, s, a, b[..|b| - 1]);
      assert (a + b)[..|a + b| - 1] == a + b[..|b| - 1];
    }
  }

  // ---- Fetched ranges and the batch built from them ----

  function RangeOps(chain: Chain, from: nat, end: nat): seq<Operation>
    decreases end
  {
    if from >= end then [] else RangeOps(chain, from, end - 1) + chain.block(end - 1).ops
  }

  function RangeRejected(chain: Chain, from: nat, end: nat): seq<string>
    decreases end
  {
    if from >= end then [] else RangeRejected(chain, from, end - 1) + chain.block(end - 1).rejected
  }

  function Ids(rejected: seq<string>): set<string> { set id | id in rejected }

  /** An inclusive range of blocks, as fetched in one go. */
  datatype Range = Range(from: nat, to: nat)

  /** One fetched range: its parser rejections first, then its operations, with fresh transfer pools. */
  function PassRange(rules: Rules, chain: Chain, s: Pass, r: Range): Option<Pass> {
    var rejected := Ids(RangeRejected(chain, r.from, r.to + 1));
    PassOps(rules, chain,
            s.(world := s.world.(invalid := s.world.invalid + rejected), pools := map[]),
            RangeOps(chain, r.from, r.to + 1))
  }

  function PassRanges(rules: Rules, chain: Chain, s: Pass, ranges: seq<Range>): Option<Pass> {
    if ranges == [] then Some(s)
    else
      match PassRanges(rules, chain, s, ranges[..|ranges| - 1])
      case None => None
      case Some(s') => PassRange(rules, chain, s', ranges[|ranges| - 1])
  }

  function Start(w: World): Pass { Pass(w, map[], None, []) }

  /** The whole batch: its ranges in order, then the boundary sweep past the last block. */
  function Batch(rules: Rules, chain: Chain, w: World, ranges: seq<Range>): Option<Pass>
    requires ranges != []
  {
    match PassRanges(rules, chain, Start(w), ranges)
    case None => None
    case Some(s) =>
      Some(s.(world := s.world.(tables := Sweep(s.world.tables, ranges[|ranges| - 1].to + 1))))
  }

  /** The last block covered by the ranges, or the one before `from` when there are none. */
  function End(ranges: seq<Range>, from: nat): int {
    if ranges == [] then from - 1 else ranges[|ranges| - 1].to
  }

  /** The ranges follow each other without gap or overlap, starting at `from`. */
  predicate Consecutive(ranges: seq<Range>, from: nat) {
    ranges == [] ||
    var front, last := ranges[..|ranges| - 1], ranges[|ranges| - 1];
    Consecutive(front, from) && last.from == End(front, from) + 1 && last.from <= last.to
  }

  // ---- The reference: one block at a time, from genesis ----

  const GENESIS_WORLD := World(Tables(map[], map[]), {}, {}, {})

  /** Operations of the block in order, its rejections, then expiry up to the next block. */
  function ReplayBlock(rules: Rules, chain: Chain, w: World, b: nat): Option<World> {
    match PassOps(rules, chain, Pass(w, map[], Some(b), []), chain.block(b).ops)
    case None => None
    case Some(s) =>
      Some(s.world.(tables := Sweep(s.world.tables, b + 1),
                    invalid := s.world.invalid + Ids(chain.block(b).rejected)))
  }

  /** The state after block `c`; None when some operation up to `c` has no decided outcome. */
  function Replayed(rules: Rules, chain: Chain, genesis: nat, c: int): Option<World>
    decreases c - genesis
  {
    if c < genesis then Some(GENESIS_WORLD)
    else
      match Replayed(rules, chain, genesis, c - 1)
      case None => None
      case Some(w) => ReplayBlock(rules, chain, w, c)
  }

  // ---- Lock step inside a block ----

  /** Equal except that `a` already holds the extra rejection records. */
  predicate SameUpTo(a: World, b: World, extra: set<string>) {
    && a.tables == b.tables && a.confirmed == b.confirmed && a.orphaned == b.orphaned
    && a.invalid == b.invalid + extra
  }

  lemma PerformIgnoresRecords(
      rules: Rules, ts: seq<Transfer>, a: World, b: World, extra: set<string>, consumed: set<nat>, op: Operation)
    requires SameUpTo(a, b, extra)
    ensures var s, t := Perform(rules, ts, a, consumed, op), Perform(rules, ts, b, consumed, op);
      && SameUpTo(s.world, t.world, extra)
      && s.consumed == t.consumed && s.route == t.route && s.muts == t.muts
  {
    hide RunHandler, PreHandlerPayment;
  }

  /** The two passes see the same state, and the same claims for every transaction of these operations. */
  ghost predicate InStep(rules: Rules, s: Pass, t: Pass, extra: set<string>, ops: seq<Operation>) {
    && SameUpTo(s.world, t.world, extra)
    && s.sweptThrough == t.sweptThrough
    && forall op :: op in ops ==> Consumed(rules, s.pools, op) == Consumed(rules, t.pools, op)
  }

  lemma PassOpInStep(rules: Rules, chain: Chain, s: Pass, t: Pass, extra: set<string>, ops: seq<Operation>, op: Operation)
    requires InStep(rules, s, t, extra, ops) && op in ops && s.sweptThrough == Some(op.blockNum)
    ensures var s', t' := PassOp(rules, chain, s, op), PassOp(rules, chain, t, op);
      && (s'.Some? <==> t'.Some?)
      && (s'.Some? ==>
            && InStep(rules, s'.value, t'.value, extra, ops)
            && s'.value.sweptThrough == s.sweptThrough
            && s'.value.pools.Keys <= s.pools.Keys + {op.txId})
  {
    hide Perform;
    PerformIgnoresRecords(rules, PoolTransfers(rules, chain, op), s.world, t.world, extra,
                          Consumed(rules, s.pools, op), op);
  }

  lemma {:induction false} PassOpsInStep(
      rules: Rules, chain: Chain, s: Pass, t: Pass, extra: set<string>, ops: seq<Operation>, b: nat, n: nat)
    requires InStep(rules, s, t, extra, ops) && s.sweptThrough == Some(b) && n <= |ops|
    requires forall op :: op in ops ==> op.blockNum == b
    ensures var s', t' := PassOps(rules, chain, s, ops[..n]), PassOps(rules, chain, t, ops[..n]);
      && (s'.Some? <==> t'.Some?)
      && (s'.Some? ==>
            && InStep(rules, s'.value, t'.value, extra, ops)
            && s'.value.sweptThrough == Some(b)
            && s'.value.pools.Keys <= s.pools.Keys + TxIds(Block(ops, [])))
  {
    if n > 0 {
      PassOpsInStep(rules, chain, s, t, extra, ops, b, n - 1);
      assert ops[..n][..n - 1] == ops[..n - 1];
      var s', t' := PassOps(rules, chain, s, ops[..n - 1]), PassOps(rules, chain, t, ops[..n - 1]);
      if s'.Some? { PassOpInStep(rules, chain, s'.value, t'.value, extra, ops, ops[n - 1]); }
    }
  }

  /** The batch sweeps to a block only when it meets an operation there; sweeping first changes nothing. */
  lemma {:induction false} SweepBeforeFirstOp(rules: Rules, chain: Chain, s: Pass, ops: seq<Operation>, b: nat)
    requires ops != [] && forall op :: op in ops ==> op.blockNum == b
    ensures PassOps(rules, chain, s, ops) == PassOps(rules, chain, Prepared(s, b), ops)
  {
    var front := ops[..|ops| - 1];
    if front == [] {
      assert ops[|ops| - 1] in ops;
    } else {
      SweepBeforeFirstOp(rules, chain, s, front, b);
    }
  }

  // ---- Between blocks: the batch lags behind the replay by sweeps it has not made yet ----

  /** The batch after all blocks below `b`, against the replay after block `b - 1`. */
  ghost predicate Lags(chain: Chain, s: Pass, w: World, extra: set<string>, b: nat) {
    && SameUpTo(s.world.(tables := Sweep(s.world.tables, b)), w, extra)
    && (s.sweptThrough.Some? ==> s.sweptThrough.value < b)
    && forall c: nat :: b <= c ==> TxIds(chain.block(c)) !! s.pools.Keys
  }

  lemma BlockKeepsLag(rules: Rules, chain: Chain, s: Pass, w: World, extra: set<string>, b: nat)
    requires WellFormed(chain) && Lags(chain, s, w, extra, b) && Ids(chain.block(b).rejected) <= extra
    ensures var s', w' := PassOps(rules, chain, s, chain.block(b).ops), ReplayBlock(rules, chain, w, b);
      && (s'.Some? <==> w'.Some?)
      && (s'.Some? ==>
            && Lags(chain, s'.value, w'.value, extra, b + 1)
            && w.invalid + Ids(chain.block(b).rejected) <= w'.value.invalid)
  {
    var ops := chain.block(b).ops;
    assert WellFormedBlock(chain, b);
    if ops == [] {
      SweepsCompose(s.world.tables, b, b + 1);
    } else {
      var s0, t0 := Prepared(s, b), Pass(w, map[], Some(b), []);
      SweepBeforeFirstOp(rules, chain, s, ops, b);
      PassOpsInStep(rules, chain, s0, t0, extra, ops, b, |ops|);
      assert ops[..|ops|] == ops;
      var t' := PassOps(rules, chain, t0, ops);
      if t'.Some? { InvalidGrows(rules, chain, t0, ops); }
    }
  }

  lemma {:induction false} InvalidGrows(rules: Rules, chain: Chain, s: Pass, ops: seq<Operation>)
    requires PassOps(rules, chain, s, ops).Some?
    ensures s.world.invalid <= PassOps(rules, chain, s, ops).value.world.invalid
  {
    if ops != [] {
      var front := ops[..|ops| - 1];
      InvalidGrows(rules, chain, s, front);
      PassOpInvalidGrows(rules, chain, PassOps(rules, chain, s, front).value, ops[|ops| - 1]);
    }
  }

  lemma PassOpInvalidGrows(rules: Rules, chain: Chain, s: Pass, op: Operation)
    requires PassOp(rules, chain, s, op).Some?
    ensures s.world.invalid <= PassOp(rules, chain, s, op).value.world.invalid
  {}

  /** Both got stuck, or the batch lags behind the replay and the replay holds the records `in`. */
  ghost predicate LagsOrStuck(
      chain: Chain, s: Option<Pass>, w: Option<World>, extra: set<string>, b: nat, records: set<string>)
  {
    && (s.Some? <==> w.Some?)
    && (s.Some? ==> Lags(chain, s.value, w.value, extra, b) && records <= w.value.invalid)
  }

  lemma NextBlockKeepsLag(
      rules: Rules, chain: Chain, s: Option<Pass>, w: Option<World>, extra: set<string>, b: nat, records: set<string>)
    requires WellFormed(chain) && LagsOrStuck(chain, s, w, extra, b, records)
    requires Ids(chain.block(b).rejected) <= extra
    ensures LagsOrStuck(chain,
                        if s.None? then None else PassOps(rules, chain, s.value, chain.block(b).ops),
                        if w.None? then None else ReplayBlock(rules, chain, w.value, b),
                        extra, b + 1, records + Ids(chain.block(b).rejected))
  {
    hide WellFormed, Lags, PassOps, ReplayBlock;
    if s.Some? { BlockKeepsLag(rules, chain, s.value, w.value, extra, b); }
  }

  lemma IdsOfRange(chain: Chain, from: nat, b: nat)
    requires from < b
    ensures Ids(RangeRejected(chain, from, b))
         == Ids(RangeRejected(chain, from, b - 1)) + Ids(chain.block(b - 1).rejected)
  {}

  /** Nothing fetched yet: nothing replayed yet. */
  lemma EmptyRangeLags(rules: Rules, chain: Chain, s: Pass, w: World, extra: set<string>, b: nat)
    requires Lags(chain, s, w, extra, b)
    ensures LagsOrStuck(chain, PassOps(rules, chain, s, RangeOps(chain, b, b)), Some(w), extra, b,
                        Ids(RangeRejected(chain, b, b)))
  {
    hide Lags;
  }

  lemma LastBlockOfRange(rules: Rules, chain: Chain, s: Pass, from: nat, b: nat)
    requires from < b
    ensures PassOps(rules, chain, s, RangeOps(chain, from, b)) ==
            var s' := PassOps(rules, chain, s, RangeOps(chain, from, b - 1));
            if s'.None? then None else PassOps(rules, chain, s'.value, chain.block(b - 1).ops)
  {
    hide PassOps;
    PassOpsInTwo(rules, chain, s, RangeOps(chain, from, b - 1), chain.block(b - 1).ops);
  }

  lemma LastBlockReplayed(rules: Rules, chain: Chain, genesis: nat, b: nat)
    requires genesis < b
    ensures Replayed(rules, chain, genesis, b - 1) ==
            var w' := Replayed(rules, chain, genesis, b - 2);
            if w'.None? then None else ReplayBlock(rules, chain, w'.value, b - 1)
  {
    hide ReplayBlock;
  }

  lemma {:induction false} RangeKeepsLag(
      rules: Rules, chain: Chain, genesis: nat, s: Pass, w: World, extra: set<string>, from: nat, b: nat)
    requires WellFormed(chain) && genesis <= from <= b
    requires Replayed(rules, chain, genesis, from - 1) == Some(w) && Lags(chain, s, w, extra, from)
    requires Ids(RangeRejected(chain, from, b)) <= extra
    ensures LagsOrStuck(chain, PassOps(rules, chain, s, RangeOps(chain, from, b)),
                        Replayed(rules, chain, genesis, b - 1), extra, b, Ids(RangeRejected(chain, from, b)))
    decreases b
  {
    hide WellFormed, Replayed, ReplayBlock, PassOps, Lags, LagsOrStuck, RangeOps, RangeRejected, Ids;
    if b == from {
      EmptyRangeLags(rules, chain, s, w, extra, from);
    } else {
      IdsOfRange(chain, from, b);
      RangeKeepsLag(rules, chain, genesis, s, w, extra, from, b - 1);
      LastBlockOfRange(rules, chain, s, from, b);
      LastBlockReplayed(rules, chain, genesis, b);
      NextBlockKeepsLag(rules, chain,
                        PassOps(rules, chain, s, RangeOps(chain, from, b - 1)), Replayed(rules, chain, genesis, b - 2),
                        extra, b - 1, Ids(RangeRejected(chain, from, b - 1)));
    }
  }

  lemma RecordAhead(chain: Chain, s: Pass, w: World, extra: set<string>, b: nat)
    requires Lags(chain, s, w, {}, b)
    ensures Lags(chain, s.(world := s.world.(invalid := s.world.invalid + extra), pools := map[]), w, extra, b)
  {}

  lemma CaughtUp(chain: Chain, s: Option<Pass>, w: Option<World>, extra: set<string>, b: nat)
    requires LagsOrStuck(chain, s, w, extra, b, extra)
    ensures LagsOrStuck(chain, s, w, {}, b, {})
  {}

  lemma PassRangeKeepsLag(rules: Rules, chain: Chain, genesis: nat, s: Pass, w: World, r: Range)
    requires WellFormed(chain) && genesis <= r.from <= r.to
    requires Replayed(rules, chain, genesis, r.from - 1) == Some(w) && Lags(chain, s, w, {}, r.from)
    ensures LagsOrStuck(chain, PassRange(rules, chain, s, r), Replayed(rules, chain, genesis, r.to), {}, r.to + 1, {})
  {
    hide WellFormed, Replayed, PassOps, Lags, LagsOrStuck, RangeOps, RangeRejected, Ids;
    var extra := Ids(RangeRejected(chain, r.from, r.to + 1));
    var s0 := s.(world := s.world.(invalid := s.world.invalid + extra), pools := map[]);
    RecordAhead(chain, s, w, extra, r.from);
    RangeKeepsLag(rules, chain, genesis, s0, w, extra, r.from, r.to + 1);
    CaughtUp(chain, PassOps(rules, chain, s0, RangeOps(chain, r.from, r.to + 1)),
             Replayed(rules, chain, genesis, r.to), extra, r.to + 1);
  }

  lemma {:induction false} ConsecutiveStartsAt(ranges: seq<Range>, from: nat)
    requires Consecutive(ranges, from)
    ensures from - 1 <= End(ranges, from)
  {
    if ranges != [] { ConsecutiveStartsAt(ranges[..|ranges| - 1], from); }
  }

  lemma {:induction false} PassRangesKeepLag(
      rules: Rules, chain: Chain, genesis: nat, w: World, ranges: seq<Range>, from: nat)
    requires WellFormed(chain) && genesis <= from && Consecutive(ranges, from)
    requires Replayed(rules, chain, genesis, from - 1) == Some(w)
    ensures LagsOrStuck(chain, PassRanges(rules, chain, Start(w), ranges),
                        Replayed(rules, chain, genesis, End(ranges, from)), {}, End(ranges, from) + 1, {})
    decreases |ranges|
  {
    hide Replayed, PassRange, WellFormed, LagsOrStuck;
    if ranges == [] {
      StartsInStep(rules, chain, genesis, w, from);
    } else {
      var front, r := ranges[..|ranges| - 1], ranges[|ranges| - 1];
      ConsecutiveStartsAt(front, from);
      assert r.from - 1 == End(front, from) && r.to == End(ranges, from);
      PassRangesKeepLag(rules, chain, genesis, w, front, from);
      NextRangeKeepsLag(rules, chain, genesis, PassRanges(rules, chain, Start(w), front), r);
    }
  }

  lemma StartsInStep(rules: Rules, chain: Chain, genesis: nat, w: World, from: nat)
    requires Replayed(rules, chain, genesis, from - 1) == Some(w)
    ensures LagsOrStuck(chain, Some(Start(w)), Some(w), {}, from, {})
  {
    ReplayedIsSwept(rules, chain, genesis, from - 1);
  }

  lemma NextRangeKeepsLag(rules: Rules, chain: Chain, genesis: nat, s: Option<Pass>, r: Range)
    requires WellFormed(chain) && genesis <= r.from <= r.to
    requires LagsOrStuck(chain, s, Replayed(rules, chain, genesis, r.from - 1), {}, r.from, {})
    ensures LagsOrStuck(chain, if s.None? then None else PassRange(rules, chain, s.value, r),
                        Replayed(rules, chain, genesis, r.to), {}, r.to + 1, {})
  {
    var w := Replayed(rules, chain, genesis, r.from - 1);
    if s.Some? {
      PassRangeKeepsLag(rules, chain, genesis, s.value, w.value, r);
    } else {
      ReplayStaysUndecided(rules, chain, genesis, r.from - 1, r.to);
    }
  }

  lemma ReplayedIsSwept(rules: Rules, chain: Chain, genesis: nat, c: int)
    requires Replayed(rules, chain, genesis, c).Some?
    ensures var t := Replayed(rules, chain, genesis, c).value.tables; Sweep(t, c + 1) == t
  {
    hide PassOps;
  }

  lemma {:induction false} ReplayStaysUndecided(rules: Rules, chain: Chain, genesis: nat, c: int, d: int)
    requires Replayed(rules, chain, genesis, c).None? && c <= d
    ensures Replayed(rules, chain, genesis, d).None?
    decreases d - c
  {
    if c < d { ReplayStaysUndecided(rules, chain, genesis, c, d - 1); }
  }

  // ---- Main results ----

  /** A batch cut in any way into consecutive ranges does exactly what replaying its blocks one at a
      time does: the same tables, confirmations and records, and it gets stuck exactly when replay does. */
  lemma BatchIsReplay(rules: Rules, chain: Chain, genesis: nat, w: World, ranges: seq<Range>, from: nat)
    requires WellFormed(chain) && genesis <= from && ranges != [] && Consecutive(ranges, from)
    requires Replayed(rules, chain, genesis, from - 1) == Some(w)
    ensures var s', w' := Batch(rules, chain, w, ranges), Replayed(rules, chain, genesis, ranges[|ranges| - 1].to);
      (s'.Some? <==> w'.Some?) && (s'.Some? ==> s'.value.world == w'.value)
  {
    PassRangesKeepLag(rules, chain, genesis, w, ranges, from);
  }
}
