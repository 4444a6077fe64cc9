/** Several indexer processes over one database: session lock, write fence, and their interleavings.
    (packages/indexer/src/scanner/sync-lock.ts, packages/indexer/src/scanner/sync-engine.ts) */
module Fleets {
  import opened Prelude
  import opened StateRootHash
  import opened StateRootFlush
  import opened Ledger
  import opened Replay
  import opened SyncEngines
  import opened SyncLocks
  import opened StaleBatches

  /** Where an indexer is in its loop: cursor read and ranges chosen, lock verified, or inside the fenced
      transaction, which works on the database as it was when the fence was taken. */
  datatype Phase =
    | Resting
    | Checked(ranges: seq<Range>)
    | Verified(ranges: seq<Range>)
    | Writing(ranges: seq<Range>, base: Db)

  datatype Indexer = Indexer(lock: Lock, phase: Phase)

  datatype Session = Session(indexer: nat, sql: nat)

  /** The server side is the session that owns the lock, the transaction that owns the fence, and the rows. */
  datatype Fleet = Fleet(indexers: seq<Indexer>, session: Option<Session>, fence: Option<nat>, db: Db)

  datatype Setting = Setting(rules: Rules, chain: Chain, genesis: nat)

  datatype Move =
    | TryLock(i: nat)
    | LockAnswers(i: nat, sql: nat)
    | LockFails(i: nat, sql: nat)
    | ReleaseLock(i: nat)
    | SessionEnds                           // unlocked, dropped, or its process died: only the server knows
    | CloseNoticed(i: nat, sql: nat)
    | Initialise(i: nat)                    // the unfenced cursor write before the first block
    | Check(i: nat, ranges: seq<Range>)     // the continuity check, outside the fence
    | Verify(i: nat, answered: bool)
    | Begin(i: nat)
    | Commit(i: nat)
    | Abort(i: nat)                         // rolled back, or the connection or the process died
    | GiveUp(i: nat)

  function WithLock(f: Fleet, i: nat, e: Event): Fleet
    requires i < |f.indexers|
  {
    f.(indexers := f.indexers[i := f.indexers[i].(lock := After(f.indexers[i].lock, e))])
  }

  function WithPhase(f: Fleet, i: nat, p: Phase): Fleet
    requires i < |f.indexers|
  {
    f.(indexers := f.indexers[i := f.indexers[i].(phase := p)])
  }

  /** The server grants the lock to a session when nobody has it or the session has it already. */
  predicate Grants(f: Fleet, s: Session) { f.session.None? || f.session == Some(s) }

  /** The transaction's result, computed from the database it started on; the cursor row moves forward only. */
  function CommittedOver(now: Db, written: Db): Db {
    written.(lastBlock := Advance(now.lastBlock, written.lastBlock))
  }

  /** A move that is not possible changes nothing. */
  function Next(g: Setting, f: Fleet, m: Move): (r: Fleet)
    ensures |r.indexers| == |f.indexers|
  {
    if m.SessionEnds? then f.(session := None)
    else if m.i >= |f.indexers| then f
    else
      var me := f.indexers[m.i];
      match m
      case TryLock(i) => WithLock(f, i, AcquireBegins)
      case LockAnswers(i, sql) =>
        if sql >= me.lock.created then f
        else if Grants(f, Session(i, sql)) then
          WithLock(f.(session := Some(Session(i, sql))), i, AcquireAnswered(sql, Row(true)))
        else f
      case LockFails(i, sql) =>
        if sql >= me.lock.created then f else WithLock(f, i, AcquireAnswered(sql, Thrown("query failed")))
      case ReleaseLock(i) => WithLock(f, i, ReleaseBegins)
      case CloseNoticed(i, sql) => if sql >= me.lock.created then f else WithLock(f, i, Closes(sql))
      case Initialise(i) => f.(db := f.db.(lastBlock := Advance(f.db.lastBlock, if g.genesis > 0 then g.genesis - 1 else 0)))
      case Check(i, ranges) =>
        if me.phase.Resting? && f.db.lastBlock >= g.genesis - 1
           && ranges != [] && Consecutive(ranges, f.db.lastBlock + 1) then WithPhase(f, i, Checked(ranges)) else f
      case Verify(i, answered) =>
        if !me.phase.Checked? then f
        else if me.lock.state.Held? && answered then WithPhase(f, i, Verified(me.phase.ranges))
        else WithPhase(f, i, Resting)
      case Begin(i) =>
        if !me.phase.Verified? then f
        else if f.fence.None? then WithPhase(f.(fence := Some(i)), i, Writing(me.phase.ranges, f.db))
        else WithPhase(f, i, Resting)
      case Commit(i) =>
        if !me.phase.Writing? || me.phase.ranges == [] then f
        else
          WithPhase(f.(fence := None, db := CommittedOver(f.db, Written(g.rules, g.chain, me.phase.base, me.phase.ranges))),
                    i, Resting)
      case Abort(i) => if me.phase.Writing? then WithPhase(f.(fence := None), i, Resting) else f
      case GiveUp(i) => if me.phase.Writing? then f else WithPhase(f, i, Resting)
      case SessionEnds => f
  }

  function Played(g: Setting, f: Fleet, moves: seq<Move>): (r: Fleet)
    ensures |r.indexers| == |f.indexers|
  {
    if moves == [] then f else Next(g, Played(g, f, moves[..|moves| - 1]), moves[|moves| - 1])
  }

  function Started(n: nat, db: Db): Fleet {
    Fleet(seq(n, _ => Indexer(NEW_LOCK, Resting)), None, None, db)
  }

  // ---- What every interleaving keeps ----

  ghost predicate IndexerInOrder(f: Fleet, i: nat)
    requires i < |f.indexers|
  {
    var me := f.indexers[i];
    && Sound(me.lock)
    && (me.phase.Writing? <==> f.fence == Some(i))
    && (!me.phase.Resting? ==> me.phase.ranges != [])
    && (me.phase.Writing? ==> SameButCursor(me.phase.base, f.db) && me.phase.base.lastBlock <= f.db.lastBlock)
  }

  /** Rows, records, summary and checkpoints are those the transaction started on. */
  ghost predicate SameButCursor(a: Db, b: Db) {
    a.world == b.world && a.meta == b.meta && a.checkpoints == b.checkpoints
  }

  ghost predicate InOrder(f: Fleet) {
    && (f.fence.Some? ==> f.fence.value < |f.indexers|)
    && forall i: nat :: i < |f.indexers| ==> IndexerInOrder(f, i)
  }

  lemma NextKeepsOrder(g: Setting, f: Fleet, m: Move)
    requires InOrder(f)
    ensures InOrder(Next(g, f, m))
  {
    hide Written, Sound, After, Consecutive;
    var f' := Next(g, f, m);
    forall i: nat | i < |f'.indexers| ensures IndexerInOrder(f', i) {
      assert IndexerInOrder(f, i);
      if !m.SessionEnds? && m.i < |f.indexers| {
        assert IndexerInOrder(f, m.i);
        NextLockIsSound(g, f, m, i);
      }
    }
  }

  lemma NextLockIsSound(g: Setting, f: Fleet, m: Move, i: nat)
    requires i < |f.indexers| && Sound(f.indexers[i].lock)
    ensures Sound(Next(g, f, m).indexers[i].lock)
  {
    hide Written, Consecutive;
  }

  lemma {:induction false} RunKeepsOrder(g: Setting, f: Fleet, moves: seq<Move>)
    requires InOrder(f)
    ensures InOrder(Played(g, f, moves))
  {
    hide InOrder, Next;
    if moves != [] {
      RunKeepsOrder(g, f, moves[..|moves| - 1]);
      NextKeepsOrder(g, Played(g, f, moves[..|moves| - 1]), moves[|moves| - 1]);
    }
  }

  /** In every interleaving of any number of indexers, with connections lost and locks reacquired at any
      point: at most one batch transaction is open, the fence names it, and nothing it read has been
      changed by anybody else, so it commits as if it had run alone. */
  lemma OneWriterInEveryRun(g: Setting, n: nat, db: Db, moves: seq<Move>, i: nat, j: nat)
    requires i < n && j < n
    ensures var f := Played(g, Started(n, db), moves);
      && (f.indexers[i].phase.Writing? && f.indexers[j].phase.Writing? ==> i == j)
      && (f.indexers[i].phase.Writing? <==> f.fence == Some(i))
      && (f.indexers[i].phase.Writing? ==> SameButCursor(f.indexers[i].phase.base, f.db))
  {
    hide Next, Played;
    assert InOrder(Started(n, db));
    RunKeepsOrder(g, Started(n, db), moves);
    var f := Played(g, Started(n, db), moves);
    assert IndexerInOrder(f, i) && IndexerInOrder(f, j);
  }

  lemma NextKeepsCursor(g: Setting, f: Fleet, m: Move)
    ensures f.db.lastBlock <= Next(g, f, m).db.lastBlock
  {
    hide Written, After, Consecutive;
  }

  /** Whatever the indexers do, stale batches included, the cursor never moves back. */
  lemma {:induction false} CursorNeverMovesBack(g: Setting, f: Fleet, moves: seq<Move>, k: nat)
    requires k <= |moves|
    ensures Played(g, f, moves[..k]).db.lastBlock <= Played(g, f, moves).db.lastBlock
    decreases |moves|
  {
    hide Next;
    if k == |moves| {
      assert moves[..k] == moves;
    } else {
      var front := moves[..|moves| - 1];
      CursorNeverMovesBack(g, f, front, k);
      assert front[..k] == moves[..k];
      NextKeepsCursor(g, Played(g, f, front), moves[|moves| - 1]);
    }
  }

  // ---- Safety of a run, given that fenced transactions start right behind the cursor ----

  /** This move does not open a transaction whose ranges start elsewhere than right behind the cursor. */
  predicate BeginsBehindCursor(f: Fleet, m: Move) {
    m.Begin? && m.i < |f.indexers| && f.indexers[m.i].phase.Verified? && f.fence.None? ==>
      Consecutive(f.indexers[m.i].phase.ranges, f.db.lastBlock + 1)
  }

  ghost predicate RunBeginsBehindCursor(g: Setting, f: Fleet, moves: seq<Move>) {
    moves == [] ||
    (RunBeginsBehindCursor(g, f, moves[..|moves| - 1])
     && BeginsBehindCursor(Played(g, f, moves[..|moves| - 1]), moves[|moves| - 1]))
  }

  /** The database is what the replay leaves, and so will be what an open transaction is about to commit. */
  ghost predicate Faultless(g: Setting, f: Fleet) {
    && Consistent(g.rules, g.chain, g.genesis, f.db)
    && forall i: nat :: i < |f.indexers| ==> PhaseFaultless(g, f, f.indexers[i].phase)
  }

  ghost predicate PhaseFaultless(g: Setting, f: Fleet, p: Phase) {
    && (!p.Resting? ==> p.ranges != [] && f.db.lastBlock >= g.genesis - 1)
    && (p.Writing? ==> p.base == f.db && Consecutive(p.ranges, f.db.lastBlock + 1))
  }

  lemma NextStaysFaultless(g: Setting, f: Fleet, m: Move)
    requires WellFormed(g.chain) && g.genesis >= 1 && InOrder(f)
    requires Faultless(g, f) && BeginsBehindCursor(f, m)
    ensures Faultless(g, Next(g, f, m))
  {
    hide WellFormed, Consistent, Sound, After, Written, Consecutive, InOrder;
    var f' := Next(g, f, m);
    match m {
      case Commit(i) =>
        if i < |f.indexers| && f.indexers[i].phase.Writing? {
          CommitStaysFaultless(g, f, i);
        }
      case Initialise(i) =>
        if i < |f.indexers| { InitialiseStaysFaultless(g, f, i); }
      case _ =>
        assert f'.db == f.db;
    }
  }

  lemma CommitStaysFaultless(g: Setting, f: Fleet, i: nat)
    requires WellFormed(g.chain) && g.genesis >= 1 && InOrder(f) && Faultless(g, f)
    requires i < |f.indexers| && f.indexers[i].phase.Writing?
    ensures Faultless(g, Next(g, f, Commit(i)))
  {
    hide WellFormed, Consistent, Sound, After, Consecutive;
    var p := f.indexers[i].phase;
    assert PhaseFaultless(g, f, p);
    ContiguousBatchIsSafe(g.rules, g.chain, g.genesis, f.db, p.ranges);
    var written := Written(g.rules, g.chain, f.db, p.ranges);
    assert CommittedOver(f.db, written) == written;
    var f' := Next(g, f, Commit(i));
    forall k: nat | k < |f'.indexers| ensures PhaseFaultless(g, f', f'.indexers[k].phase) {
      assert IndexerInOrder(f, k) && IndexerInOrder(f, i) && PhaseFaultless(g, f, f.indexers[k].phase);
    }
  }

  lemma InitialiseStaysFaultless(g: Setting, f: Fleet, i: nat)
    requires g.genesis >= 1 && Faultless(g, f) && i < |f.indexers|
    ensures Faultless(g, Next(g, f, Initialise(i)))
  {
    hide Consistent, Consecutive;
    CursorInRange(g.rules, g.chain, g.genesis, f.db);
    if f.db.lastBlock == 0 {
      CursorInitialised(g.rules, g.chain, g.genesis, f.db);
      if g.genesis > 1 {
        forall k: nat | k < |f.indexers| ensures f.indexers[k].phase.Resting? {
          assert PhaseFaultless(g, f, f.indexers[k].phase);
        }
      } else {
        assert Next(g, f, Initialise(i)) == f;
      }
    } else {
      assert Next(g, f, Initialise(i)) == f;
    }
  }

  /** If every fenced transaction opens right behind the cursor, the database is at every moment of the
      run what a plain replay up to its cursor leaves, however many indexers take turns. */
  lemma {:induction false} FleetFollowsReplay(g: Setting, n: nat, db: Db, moves: seq<Move>)
    requires WellFormed(g.chain) && g.genesis >= 1 && Consistent(g.rules, g.chain, g.genesis, db)
    requires RunBeginsBehindCursor(g, Started(n, db), moves)
    ensures Faultless(g, Played(g, Started(n, db), moves))
    ensures Consistent(g.rules, g.chain, g.genesis, Played(g, Started(n, db), moves).db)
  {
    hide WellFormed, Consistent, InOrder, Next, BeginsBehindCursor;
    if moves != [] {
      var front := moves[..|moves| - 1];
      FleetFollowsReplay(g, n, db, front);
      assert InOrder(Started(n, db)) by { StartsInOrder(n, db); }
      RunKeepsOrder(g, Started(n, db), front);
      NextStaysFaultless(g, Played(g, Started(n, db), front), moves[|moves| - 1]);
    }
  }

  lemma StartsInOrder(n: nat, db: Db)
    ensures InOrder(Started(n, db))
  {}

  // ---- The session lock alone does not keep a stale writer out ----

  /** Indexer `i` takes the lock on its first connection, reads the cursor, fetches `ranges` and verifies. */
  function Prepares(i: nat, ranges: seq<Range>): seq<Move> {
    [TryLock(i), LockAnswers(i, 0), Check(i, ranges), Verify(i, true)]
  }

  /** Two indexers prepare the same first block one after the other, the session of the first having been
      lost in between; the second writes it, and then the first begins. */
  function StaleRun(first: seq<Range>): seq<Move> {
    Prepares(0, first) + [SessionEnds] + Prepares(1, first) + [Begin(1), Commit(1), Begin(0)]
  }

  lemma {:induction false} RunInTwo(g: Setting, f: Fleet, a: seq<Move>, b: seq<Move>)
    ensures Played(g, f, a + b) == Played(g, Played(g, f, a), b)
  {
    hide Next;
    if b == [] { assert a + b == a; } else {
      RunInTwo(g, f, a, b[..|b| - 1]);
      assert (a + b)[..|a + b| - 1] == a + b[..|b| - 1];
    }
  }

  lemma RunOne(g: Setting, f: Fleet, m: Move)
    ensures Played(g, f, [m]) == Next(g, f, m)
  {
    hide Next;
    assert [m][..0] == [] && Played(g, f, []) == f;
  }

  /** Same database, fence and session, and the other indexers as they were. */
  ghost predicate OnlyMoved(f: Fleet, f': Fleet, i: nat) {
    && f'.db == f.db && f'.fence == f.fence && |f'.indexers| == |f.indexers|
    && forall k: nat :: k < |f.indexers| && k != i ==> f'.indexers[k] == f.indexers[k]
  }

  lemma TakesLock(g: Setting, f: Fleet, i: nat)
    requires i < |f.indexers| && f.indexers[i] == Indexer(NEW_LOCK, Resting) && f.session.None?
    ensures var f' := Next(g, Next(g, f, TryLock(i)), LockAnswers(i, 0));
      && OnlyMoved(f, f', i) && f'.session == Some(Session(i, 0))
      && f'.indexers[i].lock.state.Held? && f'.indexers[i].phase.Resting?
  {
    hide Written, Consecutive;
    var f1 := Next(g, f, TryLock(i));
    assert f1.indexers[i] == Indexer(After(NEW_LOCK, AcquireBegins), Resting) && f1.session.None?;
  }

  lemma ChecksAndVerifies(g: Setting, f: Fleet, i: nat, ranges: seq<Range>)
    requires i < |f.indexers| && f.indexers[i].lock.state.Held? && f.indexers[i].phase.Resting?
    requires f.db.lastBlock >= g.genesis - 1 && ranges != [] && Consecutive(ranges, f.db.lastBlock + 1)
    ensures var f' := Next(g, Next(g, f, Check(i, ranges)), Verify(i, true));
      && OnlyMoved(f, f', i) && f'.session == f.session
      && f'.indexers[i].lock.state.Held? && f'.indexers[i].phase == Verified(ranges)
  {
    hide Written, Consecutive, After;
  }

  lemma PreparesToWrite(g: Setting, f: Fleet, i: nat, ranges: seq<Range>)
    requires i < |f.indexers| && f.indexers[i] == Indexer(NEW_LOCK, Resting) && f.session.None?
    requires f.db.lastBlock >= g.genesis - 1 && ranges != [] && Consecutive(ranges, f.db.lastBlock + 1)
    ensures var f' := Played(g, f, Prepares(i, ranges));
      && OnlyMoved(f, f', i) && f'.session == Some(Session(i, 0))
      && f'.indexers[i].phase == Verified(ranges) && f'.indexers[i].lock.state.Held?
  {
    hide Next, After;
    TakesLock(g, f, i);
    ChecksAndVerifies(g, Next(g, Next(g, f, TryLock(i)), LockAnswers(i, 0)), i, ranges);
    FourMoves(g, f, TryLock(i), LockAnswers(i, 0), Check(i, ranges), Verify(i, true));
  }

  lemma FourMoves(g: Setting, f: Fleet, a: Move, b: Move, c: Move, d: Move)
    ensures Played(g, f, [a, b, c, d]) == Next(g, Next(g, Next(g, Next(g, f, a), b), c), d)
    ensures Played(g, f, [a, b, c]) == Next(g, Next(g, Next(g, f, a), b), c)
  {
    hide Next;
    RunOne(g, f, a);
    assert [a, b][..1] == [a] && [a, b, c][..2] == [a, b] && [a, b, c, d][..3] == [a, b, c];
    assert Played(g, f, [a, b]) == Next(g, Played(g, f, [a]), b);
  }

  lemma BothVerify(g: Setting, db: Db, first: seq<Range>)
    requires db.lastBlock >= g.genesis - 1 && first != [] && Consecutive(first, db.lastBlock + 1)
    ensures var f := Played(g, Started(2, db), Prepares(0, first) + [SessionEnds] + Prepares(1, first));
      && f.db == db && f.fence.None?
      && f.indexers[0].phase == Verified(first) && f.indexers[0].lock.state.Held?
      && f.indexers[1].phase == Verified(first) && f.indexers[1].lock.state.Held?
  {
    hide Next, After, Consecutive;
    var f0 := Started(2, db);
    PreparesToWrite(g, f0, 0, first);
    var f1 := Played(g, f0, Prepares(0, first));
    RunInTwo(g, f0, Prepares(0, first), [SessionEnds]);
    RunOne(g, f1, SessionEnds);
    assert Next(g, f1, SessionEnds) == f1.(session := None) by { SessionLost(g, f1); }
    PreparesToWrite(g, f1.(session := None), 1, first);
    RunInTwo(g, f0, Prepares(0, first) + [SessionEnds], Prepares(1, first));
  }

  lemma SessionLost(g: Setting, f: Fleet)
    ensures Next(g, f, SessionEnds) == f.(session := None)
  {}

  lemma WritesAndLetsIn(g: Setting, f: Fleet, first: seq<Range>)
    requires |f.indexers| == 2 && f.fence.None? && first != []
    requires f.indexers[0].phase == Verified(first) && f.indexers[1].phase == Verified(first)
    requires Batch(g.rules, g.chain, f.db.world, first).Some?
    ensures var f' := Played(g, f, [Begin(1), Commit(1), Begin(0)]);
      && |f'.indexers| == 2 && f'.fence == Some(0) && f'.indexers[0].phase == Writing(first, f'.db)
      && f'.db == CommittedOver(f.db, Written(g.rules, g.chain, f.db, first))
      && f'.db.lastBlock >= first[|first| - 1].to
  {
    hide Batch, Flushed, After, Consecutive;
    FourMoves(g, f, Begin(1), Commit(1), Begin(0), Begin(0));
    var f1 := Next(g, f, Begin(1));
    assert f1.indexers[1].phase == Writing(first, f.db) && f1.indexers[0] == f.indexers[0];
    var f2 := Next(g, f1, Commit(1));
    assert f2.fence.None? && f2.indexers[0] == f.indexers[0];
  }

  /** There is such a run: both indexers have verified the lock at the same time, and the fence is open to
      a transaction whose ranges the cursor has already passed. */
  lemma StaleWriterGetsIn(g: Setting, db: Db, block: nat)
    requires g.genesis >= 1 && block == db.lastBlock + 1 >= g.genesis
    requires Batch(g.rules, g.chain, db.world, [Range(block, block)]).Some?
    ensures var first := [Range(block, block)];
      var f := Played(g, Started(2, db), Prepares(0, first) + [SessionEnds] + Prepares(1, first));
      && f.indexers[0].phase == Verified(first) && f.indexers[0].lock.state.Held?
      && f.indexers[1].phase == Verified(first) && f.indexers[1].lock.state.Held?
    ensures var first := [Range(block, block)];
      var f := Played(g, Started(2, db), StaleRun(first));
      && |f.indexers| == 2 && f.fence == Some(0) && f.indexers[0].phase == Writing(first, f.db)
      && f.db == CommittedOver(db, Written(g.rules, g.chain, db, first)) && block <= f.db.lastBlock
  {
    hide Batch, Next, Played, After, Consecutive, Written;
    var first := [Range(block, block)];
    OneRangeFollows(block);
    BothVerify(g, db, first);
    var f := Played(g, Started(2, db), Prepares(0, first) + [SessionEnds] + Prepares(1, first));
    WritesAndLetsIn(g, f, first);
    RunInTwo(g, Started(2, db), Prepares(0, first) + [SessionEnds] + Prepares(1, first), [Begin(1), Commit(1), Begin(0)]);
  }

  // ---- What the stale writer does to the database, for the protocol of one flag ----

  lemma CommitOverwrites(g: Setting, f: Fleet, first: seq<Range>)
    requires |f.indexers| == 2 && f.indexers[0].phase == Writing(first, f.db) && first != []
    ensures Next(g, f, Commit(0)).db == CommittedOver(f.db, Written(g.rules, g.chain, f.db, first))
  {
    hide Written;
  }

  lemma WrittenWorld(rules: Rules, chain: Chain, db: Db, ranges: seq<Range>)
    requires ranges != [] && Batch(rules, chain, db.world, ranges).Some? && ranges[|ranges| - 1].to >= db.lastBlock
    ensures var after := CommittedOver(db, Written(rules, chain, db, ranges));
      && after.world == Batch(rules, chain, db.world, ranges).value.world
      && after.lastBlock == ranges[|ranges| - 1].to
  {
    hide Batch, Flushed;
  }

  lemma FirstWrite(hash: RowHash, genesis: nat, b: nat)
    requires 1 <= genesis <= b
    ensures var rules, chain := FlagRules(hash), BusyBlock(b, [NeedsFlag(b), SetsFlag(b)]);
      var was := FlagWorld({"sets"}, {"needs"});
      && WellFormed(chain) && Replayed(rules, chain, genesis, b) == Some(was)
      && Consistent(rules, chain, genesis, Db(GENESIS_WORLD, EMPTY_META, map[], b - 1))
      && Batch(rules, chain, GENESIS_WORLD, [Range(b, b)]).Some?
      && Batch(rules, chain, GENESIS_WORLD, [Range(b, b)]).value.world == was
  {
    hide PassOps, Batch, Replayed, Consistent, WellFormed, Consecutive;
    var ops := [NeedsFlag(b), SetsFlag(b)];
    var chain := BusyBlock(b, ops);
    BusyBlockIsWellFormed(b, ops);
    StillEmpty(hash, chain, genesis, b - 1);
    FlagDbConsistent(hash, chain, genesis, GENESIS_WORLD, b - 1);
    FirstTime(hash, chain, b);
    ReplayBusy(hash, genesis, b, ops, FlagWorld({"sets"}, {"needs"}), b);
    OneRangeFollows(b);
    BatchIsReplay(FlagRules(hash), chain, genesis, GENESIS_WORLD, [Range(b, b)], b);
  }

  lemma SecondWrite(hash: RowHash, b: nat)
    ensures var rules, chain := FlagRules(hash), BusyBlock(b, [NeedsFlag(b), SetsFlag(b)]);
      var s := Batch(rules, chain, FlagWorld({"sets"}, {"needs"}), [Range(b, b)]);
      s.Some? && s.value.world == FlagWorld({"needs", "sets"}, {"needs"})
  {
    hide PassOps, Batch, Sweep;
    var ops := [NeedsFlag(b), SetsFlag(b)];
    var chain := BusyBlock(b, ops);
    SecondTime(hash, chain, b);
    OpsOfRange(b, ops, b, b + 1);
    OneRangeBatch(FlagRules(hash), chain, FlagWorld({"sets"}, {"needs"}), b, b);
    QuietSweep(FlagWorld({"needs", "sets"}, {"needs"}), b + 1);
  }

  /** The stale writer commits: two indexers, each holding the verified lock when it looked, both following
      the loop, take a database that agrees with the replay to one that does not. An operation that was
      rejected in its time is now recorded both as rejected and as applied. */
  lemma StaleWriterCorrupts(hash: RowHash, genesis: nat, b: nat)
    requires 1 <= genesis <= b
    ensures var rules, chain := FlagRules(hash), BusyBlock(b, [NeedsFlag(b), SetsFlag(b)]);
      var db := Db(GENESIS_WORLD, EMPTY_META, map[], b - 1);
      var after := Played(Setting(rules, chain, genesis), Started(2, db), StaleRun([Range(b, b)]) + [Commit(0)]).db;
      && WellFormed(chain) && Consistent(rules, chain, genesis, db)
      && !Consistent(rules, chain, genesis, after)
      && "needs" in after.world.invalid && "needs" in after.world.confirmed
  {
    hide Batch, Replayed, WellFormed, Next, Played, Written, StaleRun, Prepares;
    var first, db := [Range(b, b)], Db(GENESIS_WORLD, EMPTY_META, map[], b - 1);
    var rules, chain := FlagRules(hash), BusyBlock(b, [NeedsFlag(b), SetsFlag(b)]);
    var g := Setting(rules, chain, genesis);
    FirstWrite(hash, genesis, b);
    SecondWrite(hash, b);
    StaleWriterGetsIn(g, db, b);
    var f := Played(g, Started(2, db), StaleRun(first));
    WrittenWorld(rules, chain, db, first);
    CommitOverwrites(g, f, first);
    WrittenWorld(rules, chain, f.db, first);
    RunInTwo(g, Started(2, db), StaleRun(first), [Commit(0)]);
    RunOne(g, f, Commit(0));
    assert "needs" !in FlagWorld({"sets"}, {"needs"}).confirmed;
  }

  lemma OneRangeFollows(block: nat)
    ensures Consecutive([Range(block, block)], block)
  {
    var one := [Range(block, block)];
    assert one[..|one| - 1] == [] && Consecutive([], block) && End([], block) == block - 1;
  }

  // ---- When the session lock is enough ----

  /** Every indexer between its continuity check and the end of its transaction owns the session lock. */
  ghost predicate OwnersOnly(f: Fleet) {
    forall i: nat :: i < |f.indexers| && !f.indexers[i].phase.Resting? ==> f.session.Some? && f.session.value.indexer == i
  }

  ghost predicate RunOfOwners(g: Setting, f: Fleet, moves: seq<Move>) {
    OwnersOnly(Played(g, f, moves)) && (moves == [] || RunOfOwners(g, f, moves[..|moves| - 1]))
  }

  /** Ranges that have been checked still start right behind the cursor. */
  ghost predicate ChecksHold(g: Setting, f: Fleet) {
    forall i: nat :: i < |f.indexers| && (f.indexers[i].phase.Checked? || f.indexers[i].phase.Verified?) ==>
      f.db.lastBlock >= g.genesis - 1 && Consecutive(f.indexers[i].phase.ranges, f.db.lastBlock + 1)
  }

  lemma NextKeepsChecks(g: Setting, f: Fleet, m: Move)
    requires g.genesis >= 1 && OwnersOnly(f) && ChecksHold(g, f)
    ensures ChecksHold(g, Next(g, f, m))
  {
    hide Written, After, Consecutive;
    var f' := Next(g, f, m);
    forall i: nat | i < |f'.indexers| && (f'.indexers[i].phase.Checked? || f'.indexers[i].phase.Verified?)
      ensures f'.db.lastBlock >= g.genesis - 1 && Consecutive(f'.indexers[i].phase.ranges, f'.db.lastBlock + 1)
    {
      if m.Commit? && m.i < |f.indexers| && f.indexers[m.i].phase.Writing? { assert false; }
    }
  }

  lemma {:induction false} OwnersBeginBehindCursor(g: Setting, f: Fleet, moves: seq<Move>)
    requires g.genesis >= 1 && ChecksHold(g, f) && RunOfOwners(g, f, moves)
    ensures ChecksHold(g, Played(g, f, moves)) && RunBeginsBehindCursor(g, f, moves)
  {
    hide Next, OwnersOnly, ChecksHold, BeginsBehindCursor;
    if moves != [] {
      var front, m := moves[..|moves| - 1], moves[|moves| - 1];
      OwnersBeginBehindCursor(g, f, front);
      assert OwnersOnly(Played(g, f, front));
      NextKeepsChecks(g, Played(g, f, front), m);
      BeginsChecked(g, Played(g, f, front), m);
    }
  }

  lemma BeginsChecked(g: Setting, f: Fleet, m: Move)
    requires ChecksHold(g, f)
    ensures BeginsBehindCursor(f, m)
  {
    hide Consecutive;
  }

  /** If no indexer is without the session lock between its check and the end of its transaction, the database
      is at every moment of the run what replay leaves. */
  lemma UnlostLockIsEnough(g: Setting, n: nat, db: Db, moves: seq<Move>)
    requires WellFormed(g.chain) && g.genesis >= 1 && Consistent(g.rules, g.chain, g.genesis, db)
    requires RunOfOwners(g, Started(n, db), moves)
    ensures Consistent(g.rules, g.chain, g.genesis, Played(g, Started(n, db), moves).db)
  {
    hide Next, Played, Consistent, WellFormed, RunOfOwners, RunBeginsBehindCursor;
    assert ChecksHold(g, Started(n, db));
    OwnersBeginBehindCursor(g, Started(n, db), moves);
    FleetFollowsReplay(g, n, db, moves);
  }

  /** At `k` the indexer, holding the lock, verified these ranges, and its query was answered. */
  ghost predicate VerifiedAt(g: Setting, f: Fleet, moves: seq<Move>, k: int, i: nat, ranges: seq<Range>)
    requires i < |f.indexers|
  {
    && 0 <= k < |moves| && moves[k] == Verify(i, true)
    && var me := Played(g, f, moves[..k]).indexers[i];
       me.phase == Checked(ranges) && me.lock.state.Held?
  }

  lemma NextVerifies(g: Setting, f: Fleet, m: Move, i: nat)
    requires i < |f.indexers|
    ensures var p, p' := f.indexers[i].phase, Next(g, f, m).indexers[i].phase;
      p'.Verified? || p'.Writing? ==>
        || (m == Verify(i, true) && p == Checked(p'.ranges) && f.indexers[i].lock.state.Held?)
        || ((p.Verified? || p.Writing?) && p'.ranges == p.ranges)
  {
    hide Written, After, Consecutive;
  }

  /** Whoever is about to write or writing has verified the session lock for exactly these ranges. */
  lemma {:induction false} WritersHaveVerified(g: Setting, n: nat, db: Db, moves: seq<Move>, i: nat)
    requires i < n
    ensures var f0 := Started(n, db);
      var p := Played(g, f0, moves).indexers[i].phase;
      p.Verified? || p.Writing? ==> exists k :: VerifiedAt(g, f0, moves, k, i, p.ranges)
  {
    hide Next;
    var f0 := Started(n, db);
    if moves != [] {
      var front, m, k := moves[..|moves| - 1], moves[|moves| - 1], |moves| - 1;
      WritersHaveVerified(g, n, db, front, i);
      NextVerifies(g, Played(g, f0, front), m, i);
      var p, p' := Played(g, f0, front).indexers[i].phase, Played(g, f0, moves).indexers[i].phase;
      if p'.Verified? || p'.Writing? {
        if m == Verify(i, true) && p == Checked(p'.ranges) && Played(g, f0, front).indexers[i].lock.state.Held? {
          assert VerifiedAt(g, f0, moves, k, i, p'.ranges);
        } else {
          var j :| VerifiedAt(g, f0, front, j, i, p.ranges);
          assert front[..j] == moves[..j];
          assert VerifiedAt(g, f0, moves, j, i, p'.ranges);
        }
      }
    }
  }
}
