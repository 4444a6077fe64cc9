/** When a batch may be written: exactly when it starts right behind the cursor.
    (packages/indexer/src/scanner/sync-engine.ts) */
module StaleBatches {
  import opened Prelude
  import opened OrderedMaps
  import opened StateRootHash
  import opened StateRootBuffers
  import opened StateRootFlush
  import opened TransferMatching
  import opened Ledger
  import opened Replay
  import opened SyncEngines

  /** The summary after flushing what the pass queued. */
  function Flushed(hash: RowHash, meta: StateMeta, s: BufferState): StateMeta
    requires s.entries.Valid()
  {
    var es := EntriesInOrder(s);
    StateMeta(FlushedRoot(hash, meta.stateRoot, es), FlushedCount(meta.assetCount, es), meta.lastBlockNum)
  }

  /** The database after the batch transaction over `ranges` commits; nothing changes when it is abandoned. */
  function Written(rules: Rules, chain: Chain, db: Db, ranges: seq<Range>): Db
    requires ranges != []
  {
    match Batch(rules, chain, db.world, ranges)
    case None => db
    case Some(s) =>
      Committed(db, s.world, Flushed(rules.hash, db.meta, QueuedAll(EMPTY_BUFFER, s.muts)), ranges[|ranges| - 1].to)
  }

  lemma FlushedDescribes(rules: Rules, chain: Chain, db: Db, ranges: seq<Range>)
    requires ranges != [] && Batch(rules, chain, db.world, ranges).Some?
    requires Keyed(db.world.tables.assets) && Describes(rules.hash, db.meta, Rows(db.world.tables.assets))
    ensures var s := Batch(rules, chain, db.world, ranges).value;
      Describes(rules.hash, Flushed(rules.hash, db.meta, QueuedAll(EMPTY_BUFFER, s.muts)), Rows(s.world.tables.assets))
  {
    hide Batch, TableRoot, FlushedRoot, FlushedCount, EntriesInOrder;
    var s := Batch(rules, chain, db.world, ranges).value;
    TrackedByBuffer(rules, chain, db.world, ranges);
    FlushedEntries(rules.hash, QueuedAll(EMPTY_BUFFER, s.muts));
  }

  /** A batch that starts right behind the cursor keeps the database what the replay would have left. */
  lemma ContiguousBatchIsSafe(rules: Rules, chain: Chain, genesis: nat, db: Db, ranges: seq<Range>)
    requires WellFormed(chain) && 1 <= genesis <= db.lastBlock + 1
    requires Consistent(rules, chain, genesis, db)
    requires ranges != [] && Consecutive(ranges, db.lastBlock + 1)
    ensures Consistent(rules, chain, genesis, Written(rules, chain, db, ranges))
  {
    hide Batch, Replayed, TableRoot, Flushed, WellFormed, Consecutive;
    if Batch(rules, chain, db.world, ranges).Some? {
      var s := Batch(rules, chain, db.world, ranges).value;
      FlushedDescribes(rules, chain, db, ranges);
      CommitKeepsConsistency(rules, chain, genesis, db, ranges, s,
                             Flushed(rules.hash, db.meta, QueuedAll(EMPTY_BUFFER, s.muts)));
    }
  }

  /** Whatever the protocol and the chain: writing blocks `from` to `to` behind cursor `c` leaves what the
      replay up to the new cursor leaves. */
  ghost predicate AlwaysSafe(hash: RowHash, genesis: nat, c: nat, from: nat, to: nat) {
    forall rules: Rules, chain, db: Db :: rules.hash == hash ==> SafeFor(rules, chain, genesis, db, c, from, to)
  }

  ghost predicate SafeFor(rules: Rules, chain: Chain, genesis: nat, db: Db, c: nat, from: nat, to: nat) {
    WellFormed(chain) && Consistent(rules, chain, genesis, db) && db.lastBlock == c ==>
      Consistent(rules, chain, genesis, Written(rules, chain, db, [Range(from, to)]))
  }

  // ---- A protocol and two chains that show what goes wrong otherwise ----

  /** An operation with data sets a flag; one without succeeds only if the flag is set. */
  function FlagHandler(op: Operation, v: View): Program {
    if op.data != "" then Program([SetAux("flag", Some("set"))], Succeeds)
    else if "flag" in v.tables.aux then Program([], Succeeds)
    else Program([], Rejects("flag not set"))
  }

  function FlagRules(hash: RowHash): Rules {
    Rules(hash, FlagHandler, _ => NoPayment, _ => None, (_, _) => Succeeds, _ => None, _ => false)
  }

  function NeedsFlag(b: nat): Operation { Operation(b, "t", "needs", "s", "flag", "") }

  function SetsFlag(b: nat): Operation { Operation(b, "t", "sets", "s", "flag", "now") }

  function BusyBlock(busy: nat, ops: seq<Operation>): Chain {
    Chain(b => Block(if b == busy then ops else [], []), _ => [])
  }

  function FlagWorld(confirmed: set<string>, invalid: set<string>): World {
    World(Tables(map[], map["flag" := "set"]), confirmed, invalid, {})
  }

  lemma BusyBlockIsWellFormed(busy: nat, ops: seq<Operation>)
    requires forall op :: op in ops ==> op.blockNum == busy
    ensures WellFormed(BusyBlock(busy, ops))
  {
    var chain := BusyBlock(busy, ops);
    forall b: nat ensures WellFormedBlock(chain, b) {}
  }

  lemma QuietSweep(w: World, block: int)
    requires w.tables.assets == map[]
    ensures Sweep(w.tables, block) == w.tables
  {}

  lemma PerformFlag(hash: RowHash, w: World, op: Operation)
    ensures var s := Perform(FlagRules(hash), [], w, {}, op);
      && s.muts == [] && s.consumed == {}
      && (op.operationId in w.confirmed ==> s.route == Applied && s.world == w)
      && (op.operationId !in w.confirmed && op.data != "" ==>
            && s.route == Applied
            && s.world == w.(tables := w.tables.(aux := w.tables.aux["flag" := "set"]),
                             confirmed := w.confirmed + {op.operationId}))
      && (op.operationId !in w.confirmed && op.data == "" && "flag" in w.tables.aux ==>
            s.route == Applied && s.world == w.(confirmed := w.confirmed + {op.operationId}))
      && (op.operationId !in w.confirmed && op.data == "" && "flag" !in w.tables.aux ==>
            s.route.Rejected? && s.world == w.(invalid := w.invalid + {op.operationId}))
  {
    var program := FlagHandler(op, View(w.tables, [], {}, None));
    var start := Work(w.tables, {}, [], []);
    if program.effects != [] {
      assert program.effects[1..] == [];
      assert RunEffects(op.blockNum, [], start, program.effects)
          == RunEffects(op.blockNum, [], RunEffect(op.blockNum, [], start, program.effects[0]).value, []);
    }
  }

  /** One operation of the flag protocol inside a pass over a table without assets. */
  lemma PassFlagOp(hash: RowHash, chain: Chain, s: Pass, op: Operation)
    requires s.world.tables.assets == map[] && s.pools == map[]
    ensures PassOp(FlagRules(hash), chain, s, op) ==
      Some(s.(world := Perform(FlagRules(hash), [], s.world, {}, op).world, sweptThrough := Some(op.blockNum)))
  {
    hide Perform;
    QuietSweep(s.world, op.blockNum);
    PerformFlag(hash, s.world, op);
    assert s.muts + [] == s.muts;
  }

  lemma PassTwo(rules: Rules, chain: Chain, s: Pass, a: Operation, b: Operation)
    ensures PassOps(rules, chain, s, [a, b]) ==
      match PassOp(rules, chain, s, a) case None => None case Some(s') => PassOp(rules, chain, s', b)
    ensures PassOps(rules, chain, s, [b]) == PassOp(rules, chain, s, b)
  {
    hide PassOp;
    assert [a, b][..1] == [a] && [a][..0] == [] && [b][..0] == [];
    assert PassOps(rules, chain, s, []) == Some(s);
    assert PassOps(rules, chain, s, [a]) == PassOp(rules, chain, s, a);
  }

  lemma {:induction false} QuietReplay(rules: Rules, chain: Chain, genesis: nat, from: int, c: int, w: World)
    requires genesis - 1 <= from <= c && Replayed(rules, chain, genesis, from) == Some(w) && w.tables.assets == map[]
    requires forall b: nat :: from < b <= c ==> chain.block(b) == Block([], [])
    ensures Replayed(rules, chain, genesis, c) == Some(w)
    decreases c - from
  {
    if from < c {
      QuietReplay(rules, chain, genesis, from, c - 1, w);
      QuietSweep(w, c + 1);
      assert PassOps(rules, chain, Pass(w, map[], Some(c), []), []) == Some(Pass(w, map[], Some(c), []));
      assert w.invalid + Ids([]) == w.invalid;
    }
  }

  /** Replaying the busy block from the empty table. */
  lemma ReplayBusy(hash: RowHash, genesis: nat, busy: nat, ops: seq<Operation>, w: World, c: int)
    requires genesis <= busy <= c
    requires PassOps(FlagRules(hash), BusyBlock(busy, ops), Pass(GENESIS_WORLD, map[], Some(busy), []), ops).Some?
    requires PassOps(FlagRules(hash), BusyBlock(busy, ops), Pass(GENESIS_WORLD, map[], Some(busy), []), ops).value.world == w
    requires w.tables.assets == map[]
    ensures Replayed(FlagRules(hash), BusyBlock(busy, ops), genesis, c) == Some(w)
  {
    hide PassOps;
    var chain := BusyBlock(busy, ops);
    QuietReplay(FlagRules(hash), chain, genesis, genesis - 1, busy - 1, GENESIS_WORLD);
    QuietSweep(w, busy + 1);
    assert w.invalid + Ids([]) == w.invalid;
    assert Replayed(FlagRules(hash), chain, genesis, busy) == Some(w);
    QuietReplay(FlagRules(hash), chain, genesis, busy, c, w);
  }

  lemma FlagDbConsistent(hash: RowHash, chain: Chain, genesis: nat, w: World, c: nat)
    requires c >= genesis - 1 && w.tables.assets == map[]
    requires Replayed(FlagRules(hash), chain, genesis, c) == Some(w)
    ensures Consistent(FlagRules(hash), chain, genesis, Db(w, EMPTY_META, map[], c))
  {
    hide Replayed;
    assert Rows(map[]) == map[];
    EmptyTableRoot(FlagRules(hash).hash);
  }

  lemma OneRangeBatch(rules: Rules, chain: Chain, w: World, from: nat, to: nat)
    requires from <= to && forall b: nat :: from <= b <= to ==> chain.block(b).rejected == []
    ensures Batch(rules, chain, w, [Range(from, to)]) ==
      match PassOps(rules, chain, Start(w), RangeOps(chain, from, to + 1))
      case None => None
      case Some(s) => Some(s.(world := s.world.(tables := Sweep(s.world.tables, to + 1))))
  {
    hide PassOps, Sweep;
    NothingRejected(chain, from, to + 1);
    assert [Range(from, to)][..0] == [];
    assert PassRanges(rules, chain, Start(w), []) == Some(Start(w));
    assert w.invalid + Ids([]) == w.invalid;
  }

  lemma {:induction false} NothingRejected(chain: Chain, from: nat, end: nat)
    requires forall b: nat :: from <= b < end ==> chain.block(b).rejected == []
    ensures RangeRejected(chain, from, end) == []
    decreases end
  {
    if from < end { NothingRejected(chain, from, end - 1); }
  }

  lemma {:induction false} OpsOfRange(busy: nat, ops: seq<Operation>, from: nat, end: nat)
    ensures RangeOps(BusyBlock(busy, ops), from, end) == if from <= busy < end then ops else []
    decreases end
  {
    if from < end { OpsOfRange(busy, ops, from, end - 1); }
  }

  /** A batch that leaves another world than the replay up to the new cursor is a counterexample. */
  lemma Diverges(hash: RowHash, rules: Rules, chain: Chain, genesis: nat, db: Db, from: nat, to: nat, replayed: World, s: Pass)
    requires rules.hash == hash && WellFormed(chain) && Consistent(rules, chain, genesis, db)
    requires Batch(rules, chain, db.world, [Range(from, to)]) == Some(s)
    requires Replayed(rules, chain, genesis, Max(db.lastBlock, to)) == Some(replayed) && s.world != replayed
    ensures !AlwaysSafe(hash, genesis, db.lastBlock, from, to)
  {
    hide Batch, Replayed, WellFormed, Flushed;
    var after := Written(rules, chain, db, [Range(from, to)]);
    assert after.world == s.world && after.lastBlock == Max(db.lastBlock, to);
    assert !SafeFor(rules, chain, genesis, db, db.lastBlock, from, to);
  }

  /** Writing blocks the cursor has already passed can apply an operation that was rejected in its time. */
  lemma RewrittenBlocksDiverge(hash: RowHash, genesis: nat, c: nat, from: nat, to: nat)
    requires 1 <= genesis <= from <= to && from <= c
    ensures !AlwaysSafe(hash, genesis, c, from, to)
  {
    hide PassOps, Batch, Replayed, Consistent, Sweep, WellFormed;
    var ops := [NeedsFlag(from), SetsFlag(from)];
    var chain := BusyBlock(from, ops);
    var was, now := FlagWorld({"sets"}, {"needs"}), FlagWorld({"needs", "sets"}, {"needs"});
    BusyBlockIsWellFormed(from, ops);
    FirstTime(hash, chain, from);
    ReplayBusy(hash, genesis, from, ops, was, c);
    ReplayBusy(hash, genesis, from, ops, was, Max(c, to));
    FlagDbConsistent(hash, chain, genesis, was, c);
    SecondTime(hash, chain, from);
    OpsOfRange(from, ops, from, to + 1);
    OneRangeBatch(FlagRules(hash), chain, was, from, to);
    QuietSweep(now, to + 1);
    assert "needs" in now.confirmed && "needs" !in was.confirmed;
    Diverges(hash, FlagRules(hash), chain, genesis, Db(was, EMPTY_META, map[], c), from, to, was,
             Batch(FlagRules(hash), chain, was, [Range(from, to)]).value);
  }

  lemma FirstTime(hash: RowHash, chain: Chain, from: nat)
    ensures var s := PassOps(FlagRules(hash), chain, Pass(GENESIS_WORLD, map[], Some(from), []),
                             [NeedsFlag(from), SetsFlag(from)]);
      s.Some? && s.value.world == FlagWorld({"sets"}, {"needs"})
  {
    hide Perform, PassOp;
    var a, b := NeedsFlag(from), SetsFlag(from);
    var first := Pass(GENESIS_WORLD, map[], Some(from), []);
    PerformFlag(hash, GENESIS_WORLD, a);
    PassFlagOp(hash, chain, first, a);
    var second := PassOp(FlagRules(hash), chain, first, a).value;
    PerformFlag(hash, second.world, b);
    PassFlagOp(hash, chain, second, b);
    PassTwo(FlagRules(hash), chain, first, a, b);
  }

  lemma SecondTime(hash: RowHash, chain: Chain, from: nat)
    ensures var s := PassOps(FlagRules(hash), chain, Start(FlagWorld({"sets"}, {"needs"})),
                             [NeedsFlag(from), SetsFlag(from)]);
      s.Some? && s.value.world == FlagWorld({"needs", "sets"}, {"needs"})
  {
    hide Perform, PassOp;
    var a, b := NeedsFlag(from), SetsFlag(from);
    var was := FlagWorld({"sets"}, {"needs"});
    PerformFlag(hash, was, a);
    PassFlagOp(hash, chain, Start(was), a);
    var s := PassOp(FlagRules(hash), chain, Start(was), a).value;
    PerformFlag(hash, s.world, b);
    PassFlagOp(hash, chain, s, b);
    PassTwo(FlagRules(hash), chain, Start(was), a, b);
    assert {"sets"} + {"needs"} == {"needs", "sets"};
  }

  /** Writing blocks beyond a gap loses the operations in the gap. */
  lemma SkippedBlocksDiverge(hash: RowHash, genesis: nat, c: nat, from: nat, to: nat)
    requires 1 <= genesis <= c + 1 < from <= to
    ensures !AlwaysSafe(hash, genesis, c, from, to)
  {
    hide PassOps, Batch, Replayed, Consistent, Sweep, WellFormed;
    var ops := [SetsFlag(c + 1)];
    var chain := BusyBlock(c + 1, ops);
    var late := FlagWorld({"sets"}, {});
    BusyBlockIsWellFormed(c + 1, ops);
    OnlySets(hash, chain, c + 1);
    ReplayBusy(hash, genesis, c + 1, ops, late, to);
    StillEmpty(hash, chain, genesis, c);
    FlagDbConsistent(hash, chain, genesis, GENESIS_WORLD, c);
    OpsOfRange(c + 1, ops, from, to + 1);
    OneRangeBatch(FlagRules(hash), chain, GENESIS_WORLD, from, to);
    PassNothing(FlagRules(hash), chain, Start(GENESIS_WORLD));
    QuietSweep(GENESIS_WORLD, to + 1);
    assert "sets" in late.confirmed;
    Diverges(hash, FlagRules(hash), chain, genesis, Db(GENESIS_WORLD, EMPTY_META, map[], c), from, to, late,
             Batch(FlagRules(hash), chain, GENESIS_WORLD, [Range(from, to)]).value);
  }

  lemma PassNothing(rules: Rules, chain: Chain, s: Pass)
    ensures PassOps(rules, chain, s, []) == Some(s)
  {}

  lemma StillEmpty(hash: RowHash, chain: Chain, genesis: nat, c: nat)
    requires genesis <= c + 1 && forall b: nat :: b <= c ==> chain.block(b) == Block([], [])
    ensures Replayed(FlagRules(hash), chain, genesis, c) == Some(GENESIS_WORLD)
  {
    QuietReplay(FlagRules(hash), chain, genesis, genesis - 1, c, GENESIS_WORLD);
  }

  lemma OnlySets(hash: RowHash, chain: Chain, b: nat)
    ensures var s := PassOps(FlagRules(hash), chain, Pass(GENESIS_WORLD, map[], Some(b), []), [SetsFlag(b)]);
      s.Some? && s.value.world == FlagWorld({"sets"}, {})
  {
    hide Perform, PassOp;
    var op, first := SetsFlag(b), Pass(GENESIS_WORLD, map[], Some(b), []);
    PerformFlag(hash, GENESIS_WORLD, op);
    PassFlagOp(hash, chain, first, op);
    PassTwo(FlagRules(hash), chain, first, op, op);
  }

  /** Writing a range keeps the database equal to the replay for every protocol and chain if and only if
      the range starts right behind the cursor at the moment it is written. */
  lemma SafeExactlyBehindCursor(hash: RowHash, genesis: nat, c: nat, from: nat, to: nat)
    requires 1 <= genesis <= from <= to && genesis <= c + 1
    ensures AlwaysSafe(hash, genesis, c, from, to) <==> from == c + 1
  {
    hide Consistent, Written, WellFormed;
    if from == c + 1 {
      forall rules: Rules, chain, db: Db | rules.hash == hash
        ensures SafeFor(rules, chain, genesis, db, c, from, to) {
        if WellFormed(chain) && Consistent(rules, chain, genesis, db) && db.lastBlock == c {
          assert [Range(from, to)][..0] == [];
          ContiguousBatchIsSafe(rules, chain, genesis, db, [Range(from, to)]);
        }
      }
    } else if from <= c {
      RewrittenBlocksDiverge(hash, genesis, c, from, to);
    } else {
      SkippedBlocksDiverge(hash, genesis, c, from, to);
    }
  }
}
