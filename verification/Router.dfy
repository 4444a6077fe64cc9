/** Routing one operation inside a batch transaction: checkpoint, savepoint, handler, rollback.
    (packages/indexer/src/processor/action-router.ts, packages/indexer/src/db/client.ts) */
module Router {
  import opened Prelude
  import opened StateRootHash
  import opened StateRootBuffers
  import opened TransferMatching
  import opened Ledger

  /** Where the database fails under an operation, if it does. */
  datatype Infrastructure =
    | Healthy
    | FailsAtGate(error: string)
    | FailsInHandler(afterEffects: nat, error: string)
    | FailsAtRecord(error: string)

  /** An open batch transaction: what its connection sees, and the buffer that lives as long as it does. */
  class BatchTransaction {
    const rules: Rules
    const buffer: StateRootBuffer
    var world: World

    constructor (rules: Rules, world: World)
      ensures this.rules == rules && this.world == world && fresh(buffer)
      ensures buffer.Valid() && buffer.State() == EMPTY_BUFFER
    {
      this.rules, this.world := rules, world;
      this.buffer := new StateRootBuffer();
    }

    /** One effect of the handler, applied in place to rows, buffer and pool. */
    method ApplyEffect(op: Operation, pool: TransferPool, e: Effect, ghost w: Work) returns (r: Outcome<()>)
      requires buffer.Valid()
      requires w.tables == world.tables && (rules.requirement(op).SplitPayment? ==> w.consumed == pool.consumed)
      modifies this`world, buffer, pool
      ensures buffer.Valid()
      ensures var ran := RunEffect(op.blockNum, HandlerTransfers(rules, op, pool.transfers), w, e);
        match r {
          case Ok(_) =>
            && ran.Ok?
            && world == old(world).(tables := ran.value.tables)
            && (if rules.requirement(op).SplitPayment? then pool.consumed == ran.value.consumed
                else pool.consumed == old(pool.consumed))
            && w.muts <= ran.value.muts
            && buffer.State() == QueuedAll(old(buffer.State()), ran.value.muts[|w.muts|..])
          case Reject(reason) =>
            && ran == Reject(reason)
            && world == old(world) && buffer.State() == old(buffer.State()) && pool.consumed == old(pool.consumed)
          case Fault(error) =>
            && ran == Fault(error)
            && world == old(world) && buffer.State() == old(buffer.State()) && pool.consumed == old(pool.consumed)
        }
    {
      var assets := world.tables.assets;
      match e {
        case Put(a) =>
          var mutation := PutMutation(assets, a, op.blockNum);
          world := world.(tables := world.tables.(assets := assets[a.row.id := a]));
          buffer.Queue(mutation);
          assert (w.muts + [mutation])[|w.muts|..] == [mutation];
          assert [mutation][..0] == [];
        case Remove(id) =>
          if id in assets {
            var mutation := Delete(assets[id].row, op.blockNum);
            world := world.(tables := world.tables.(assets := assets - {id}));
            buffer.Queue(mutation);
            assert (w.muts + [mutation])[|w.muts|..] == [mutation];
            assert [mutation][..0] == [];
          }
        case SetSale(id, sale) =>
          if id in assets {
            world := world.(tables := world.tables.(assets := assets[id := assets[id].(sale := sale)]));
          }
        case SetAux(key, value) =>
          world := world.(tables := world.tables.(aux :=
            if value.Some? then world.tables.aux[key := value.value] else world.tables.aux - {key}));
        case Claim(payment) =>
          if rules.requirement(op).SplitPayment? {
            var matched := pool.VerifyTransfers(payment);
            if matched.Reject? { return Reject(matched.reason); }
            if matched.Fault? { return Fault(matched.error); }
          } else {
            return Reject("No transfers found. Payment split is required.");
          }
      }
      return Ok(());
    }

    /** The handler's effects in order, stopping at the first that is refused or that the database fails.
        `done` is what has been carried out by then. */
    method RunHandlerEffects(op: Operation, pool: TransferPool, program: Program, db: Infrastructure)
      returns (r: Outcome<()>, ghost done: Work)
      requires buffer.Valid()
      modifies this`world, buffer, pool
      ensures buffer.Valid() && buffer.State() == QueuedAll(old(buffer.State()), done.muts)
      ensures world == old(world).(tables := done.tables)
      ensures pool.consumed == if rules.requirement(op).SplitPayment? then done.consumed else old(pool.consumed)
      ensures var ran := Concluded(RunEffects(op.blockNum, HandlerTransfers(rules, op, pool.transfers),
                                              Work(old(world).tables, old(pool.consumed), [], []), program.effects),
                                   program.verdict);
        && (r.Ok? ==> ran == Ok(done))
        && (r.Reject? ==> ran == Reject(r.reason))
        && (db.Healthy? && r.Fault? ==> ran == Fault(r.error))
    {
      ghost var start := buffer.State();
      ghost var ts := HandlerTransfers(rules, op, pool.transfers);
      done := Work(world.tables, pool.consumed, [], []);
      ghost var whole := RunEffects(op.blockNum, ts, done, program.effects);
      for k := 0 to |program.effects|
        invariant buffer.Valid() && buffer.State() == QueuedAll(start, done.muts)
        invariant world == old(world).(tables := done.tables)
        invariant pool.consumed == if rules.requirement(op).SplitPayment? then done.consumed else old(pool.consumed)
        invariant whole == RunEffects(op.blockNum, ts, done, program.effects[k..])
      {
        if db.FailsInHandler? && db.afterEffects == k { return Fault(db.error), done; }
        ghost var step := RunEffect(op.blockNum, ts, done, program.effects[k]);
        var applied := ApplyEffect(op, pool, program.effects[k], done);
        if !applied.Ok? { return applied, done; }
        QueuedRest(start, done.muts, step.value.muts);
        assert program.effects[k..][1..] == program.effects[k + 1..];
        done := step.value;
      }
      match program.verdict {
        case Succeeds => return Ok(()), done;
        case Rejects(reason) => return Reject(reason), done;
        case Faults(error) => return Fault(error), done;
      }
    }

    /** Never throws. Whenever the result is not fatal, rows, buffer and consumed set are exactly what the
        atomic step says: everything for an applied operation, nothing but the record for a rejected one.
        The step itself knows no checkpoint, savepoint or rollback. */
    method RouteOperationDetailed(op: Operation, pool: TransferPool, db: Infrastructure) returns (route: Route)
      requires buffer.Valid()
      modifies this`world, buffer, pool
      ensures buffer.Valid()
      ensures var s := Perform(rules, pool.transfers, old(world), old(pool.consumed), op);
        && (db.Healthy? ==> route == s.route)
        && (!route.Fatal? ==>
              && route == s.route
              && world == s.world
              && pool.consumed == s.consumed
              && buffer.State() == QueuedAll(old(buffer.State()), s.muts))
    {
      if db.FailsAtGate? { return Fatal(db.error); }
      if op.operationId in world.confirmed { return Applied; }

      var authCheck := rules.authMismatch(op);
      if authCheck.Some? {
        if db.FailsAtRecord? { return Fatal(db.error); }
        world := RecordInvalid(world, op);
        return Rejected(authCheck.value);
      }

      var bufferSnap := buffer.Checkpoint();
      var consumedSnap := pool.consumed;
      var gate := rules.nodeGate(op, world.tables);
      if gate.Faults? { return Fatal(gate.error); }
      if gate.Rejects? { route := RecordRejected(op, pool, gate.reason, db); return; }
      var preMatch := PreHandlerPayment(rules, pool.transfers, pool.consumed, op);
      if preMatch.Fault? { return Fatal(preMatch.error); }
      if preMatch.Reject? { route := RecordRejected(op, pool, preMatch.reason, db); return; }
      var payment := preMatch.value;

      var savepoint := world;
      var program := rules.handler(op, View(world.tables, pool.transfers, pool.consumed, payment));
      var handled, done := RunHandlerEffects(op, pool, program, db);
      if !handled.Ok? {
        // ROLLBACK TO SAVEPOINT, then buffer and consumed set follow.
        world := savepoint;
        UndoQueuedAll(old(buffer.State()), done.muts);
        var undone := buffer.RollbackTo(bufferSnap);
        pool.consumed := consumedSnap;
        if handled.Fault? { return Fatal(handled.error); }
        route := RecordRejected(op, pool, handled.reason, db);
        return;
      }

      if payment.Some? { pool.consumed := pool.consumed + {payment.value}; }
      if db.FailsAtRecord? { return Fatal(db.error); }
      world := world.(confirmed := world.confirmed + {op.operationId});
      FixedFeeClaimsAlone(rules, pool.transfers, savepoint.tables, consumedSnap, payment, op);
      return Applied;
    }

    /** Record a rejection, and flag a failed buy whose coins have already moved. */
    method RecordRejected(op: Operation, pool: TransferPool, reason: string, db: Infrastructure) returns (route: Route)
      modifies this`world
      ensures db.Healthy? ==> route == Rejected(reason)
      ensures !route.Fatal? ==>
        route == Rejected(reason) && world == RecordRejection(rules, pool.transfers, old(world), op)
    {
      if db.FailsAtRecord? { return Fatal(db.error); }
      world := RecordInvalid(world, op);
      if rules.isBuy(op) && |pool.transfers| > 0 {
        world := world.(orphaned := world.orphaned + {op.operationId});
      }
      return Rejected(reason);
    }
  }

  lemma {:induction false} QueuedInTwo(s: BufferState, a: seq<BufferedMutation>, b: seq<BufferedMutation>)
    requires s.entries.Valid()
    ensures QueuedAll(QueuedAll(s, a), b) == QueuedAll(s, a + b)
  {
    if b == [] { assert a + b == a; } else {
      QueuedInTwo(s, a, b[..|b| - 1]);
      assert (a + b)[..|a + b| - 1] == a + b[..|b| - 1];
    }
  }

  lemma QueuedRest(s: BufferState, a: seq<BufferedMutation>, ab: seq<BufferedMutation>)
    requires s.entries.Valid() && a <= ab
    ensures QueuedAll(QueuedAll(s, a), ab[|a|..]) == QueuedAll(s, ab)
  {
    QueuedInTwo(s, a, ab[|a|..]);
    assert a + ab[|a|..] == ab;
  }

  /** The handler of an action without a split leaves the claims alone. */
  lemma FixedFeeClaimsAlone(
      rules: Rules, ts: seq<Transfer>, t: Tables, consumed: set<nat>, payment: Option<nat>, op: Operation)
    ensures var r := RunHandler(rules, ts, t, consumed, payment, op);
      r.Ok? && !rules.requirement(op).SplitPayment? ==> r.value.consumed == consumed
  {
    var r := RunHandler(rules, ts, t, consumed, payment, op);
    if r.Ok? && !rules.requirement(op).SplitPayment? {
      NothingToClaim(op.blockNum, Work(t, consumed, [], []),
                     rules.handler(op, View(t, ts, consumed, payment)).effects);
    }
  }
}
