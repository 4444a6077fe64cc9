/** The per-transaction buffer of state-root changes, with its undo log.
    (packages/indexer/src/utils/state-root-buffer.ts) */
module StateRootBuffers {
  import opened Prelude
  import opened OrderedMaps
  import opened StateRootHash

  datatype BufferedMutation =
    | Insert(newRow: AssetStateRow, blockNum: nat)
    | Update(oldRow: AssetStateRow, newRow: AssetStateRow, blockNum: nat)
    | Delete(oldRow: AssetStateRow, blockNum: nat)
  {
    function Id(): string { if Delete? then oldRow.id else newRow.id }
    function IncomingOld(): Option<AssetStateRow> { if Insert? then None else Some(oldRow) }
    function IncomingNew(): Option<AssetStateRow> { if Delete? then None else Some(newRow) }
  }

  /** The net change of one asset over a transaction. */
  datatype NetEntry = NetEntry(
    firstOld: Option<AssetStateRow>,
    lastNew: Option<AssetStateRow>,
    blockNum: nat)

  datatype Change = Change(id: string, previous: Option<NetEntry>)

  datatype BufferState = BufferState(entries: OrderedMap<string, NetEntry>, changes: seq<Change>)

  const EMPTY_BUFFER := BufferState(Empty(), [])

  function Lookup<K, V>(m: map<K, V>, k: K): Option<V> { if k in m then Some(m[k]) else None }

  /** The first old row is kept, the last new row wins. */
  function Merge(existing: Option<NetEntry>, m: BufferedMutation): NetEntry {
    match existing
    case None => NetEntry(m.IncomingOld(), m.IncomingNew(), m.blockNum)
    case Some(e) => NetEntry(e.firstOld, m.IncomingNew(), Max(e.blockNum, m.blockNum))
  }

  function Queued(s: BufferState, m: BufferedMutation): (r: BufferState)
    requires s.entries.Valid()
    ensures r.entries.Valid() && |r.changes| == |s.changes| + 1
  {
    var existing := Lookup(s.entries.values, m.Id());
    BufferState(s.entries.Set(m.Id(), Merge(existing, m)), s.changes + [Change(m.Id(), existing)])
  }

  function QueuedAll(s: BufferState, ms: seq<BufferedMutation>): (r: BufferState)
    requires s.entries.Valid()
    ensures r.entries.Valid() && |r.changes| == |s.changes| + |ms|
  {
    if ms == [] then s else Queued(QueuedAll(s, ms[..|ms| - 1]), ms[|ms| - 1])
  }

  function UndoOne(s: BufferState): (r: BufferState)
    requires s.entries.Valid() && s.changes != []
    ensures r.entries.Valid() && |r.changes| == |s.changes| - 1
  {
    var c := s.changes[|s.changes| - 1];
    BufferState(
      match c.previous { case None => s.entries.Delete(c.id) case Some(e) => s.entries.Set(c.id, e) },
      s.changes[..|s.changes| - 1])
  }

  function UndoTo(s: BufferState, checkpoint: nat): (r: BufferState)
    requires s.entries.Valid() && checkpoint <= |s.changes|
    ensures r.entries.Valid() && |r.changes| == checkpoint
    decreases |s.changes|
  {
    if |s.changes| == checkpoint then s else UndoTo(UndoOne(s), checkpoint)
  }

  /** Undoing down to a checkpoint begins with the last change of the log. */
  lemma UndoLast(s: BufferState, checkpoint: nat)
    requires s.entries.Valid() && checkpoint < |s.changes|
    ensures var c, rest := s.changes[|s.changes| - 1], s.changes[..|s.changes| - 1];
      match c.previous
      case None => UndoTo(s, checkpoint) == UndoTo(BufferState(s.entries.Delete(c.id), rest), checkpoint)
      case Some(e) => UndoTo(s, checkpoint) == UndoTo(BufferState(s.entries.Set(c.id, e), rest), checkpoint)
  {
    hide OrderedMap.Set, OrderedMap.Delete;
  }

  lemma NothingToUndo(s: BufferState)
    requires s.entries.Valid()
    ensures UndoTo(s, |s.changes|) == s
  {}

  /** `maxBlockNum`, as the greatest block among the entries. */
  ghost predicate IsMaxBlock(s: BufferState, max: nat) {
    && (forall id :: id in s.entries.values ==> s.entries.values[id].blockNum <= max)
    && (max == 0 || exists id :: id in s.entries.values && s.entries.values[id].blockNum == max)
  }

  class StateRootBuffer {
    var entries: OrderedMap<string, NetEntry>
    var changes: seq<Change>

    ghost predicate Valid()
      reads this
    {
      entries.Valid()
    }

    function State(): BufferState
      reads this
    {
      BufferState(entries, changes)
    }

    constructor ()
      ensures Valid() && State() == EMPTY_BUFFER
    {
      entries, changes := Empty(), [];
    }

    method Queue(mutation: BufferedMutation)
      requires Valid()
      modifies this
      ensures Valid() && State() == Queued(old(State()), mutation)
    {
      var id := mutation.Id();
      if id !in entries.values {
        changes := changes + [Change(id, None)];
        entries := entries.Set(id, NetEntry(mutation.IncomingOld(), mutation.IncomingNew(), mutation.blockNum));
        return;
      }
      var existing := entries.values[id];
      changes := changes + [Change(id, Some(existing))];
      entries := entries.Set(id,
        NetEntry(existing.firstOld, mutation.IncomingNew(), Max(existing.blockNum, mutation.blockNum)));
    }

    method IsEmpty() returns (empty: bool)
      requires Valid()
      ensures empty <==> State().entries == Empty()
    {
      empty := |entries.keys| == 0;
      assert empty ==> forall k :: k !in entries.values;
    }

    /** The entries in insertion order, one per key. */
    method Iter() returns (es: seq<NetEntry>)
      requires Valid()
      ensures |es| == |State().entries.keys|
      ensures forall i :: 0 <= i < |es| ==> es[i] == State().entries.values[State().entries.keys[i]]
    {
      es := seq(|entries.keys|, i requires 0 <= i < |entries.keys| && Valid() reads this =>
        entries.values[entries.keys[i]]);
    }

    method MaxBlockNum() returns (max: nat)
      requires Valid()
      ensures IsMaxBlock(State(), max)
    {
      max := 0;
      for i := 0 to |entries.keys|
        invariant forall k :: 0 <= k < i ==> entries.values[entries.keys[k]].blockNum <= max
        invariant max == 0 || exists id :: id in entries.values && entries.values[id].blockNum == max
      {
        var e := entries.values[entries.keys[i]];
        if e.blockNum > max { max := e.blockNum; }
      }
    }

    method Checkpoint() returns (checkpoint: nat)
      requires Valid()
      ensures checkpoint == |State().changes|
    {
      checkpoint := |changes|;
    }

    /** Refuses a checkpoint outside the log, and otherwise undoes changes last to first. */
    method RollbackTo(checkpoint: int) returns (r: Result<()>)
      requires Valid()
      modifies this
      ensures Valid()
      ensures r.Done? <==> 0 <= checkpoint <= |old(State()).changes|
      ensures State() == if r.Done? then UndoTo(old(State()), checkpoint) else old(State())
    {
      hide UndoTo, OrderedMap.Set, OrderedMap.Delete, OrderedMap.Valid;
      if checkpoint < 0 || checkpoint > |changes| {
        return Error("StateRootBuffer: invalid checkpoint");
      }
      while |changes| > checkpoint
        invariant Valid() && checkpoint <= |changes|
        invariant UndoTo(State(), checkpoint) == UndoTo(old(State()), checkpoint)
        decreases |changes|
      {
        UndoLast(State(), checkpoint);
        var change := changes[|changes| - 1];
        changes := changes[..|changes| - 1];
        match change.previous {
          case None => entries := entries.Delete(change.id);
          case Some(previous) => entries := entries.Set(change.id, previous);
        }
      }
      NothingToUndo(State());
      return Done(());
    }

    method Clear()
      modifies this
      ensures Valid() && State() == EMPTY_BUFFER
    {
      entries, changes := Empty(), [];
    }
  }

  // Undo is exact: contents, insertion order and log all come back.

  lemma UndoQueued(s: BufferState, m: BufferedMutation)
    requires s.entries.Valid()
    ensures UndoOne(Queued(s, m)) == s
  {
    var id := m.Id();
    var t := Queued(s, m);
    assert t.changes[..|t.changes| - 1] == s.changes;
    if id !in s.entries.values {
      DeleteUndoesSet(s.entries, id, Merge(None, m));
    } else {
      assert s.entries.values[id := Merge(Some(s.entries.values[id]), m)][id := s.entries.values[id]]
          == s.entries.values;
    }
  }

  lemma {:induction false} UndoToTwice(s: BufferState, d: nat, c: nat)
    requires s.entries.Valid() && c <= d <= |s.changes|
    ensures UndoTo(UndoTo(s, d), c) == UndoTo(s, c)
    decreases |s.changes|
  {
    if |s.changes| > d { UndoToTwice(UndoOne(s), d, c); }
  }

  /** What a caller may do with a buffer: queue, or roll back to some earlier log length. */
  datatype Command = DoQueue(m: BufferedMutation) | DoRollback(checkpoint: nat)

  /** Every rollback of the run is to a valid checkpoint not below `floor`. */
  ghost predicate StaysAbove(s: BufferState, floor: nat, run: seq<Command>)
    requires s.entries.Valid()
    decreases |run|
  {
    run == [] ||
    (match run[0]
     case DoQueue(m) => StaysAbove(Queued(s, m), floor, run[1..])
     case DoRollback(c) => floor <= c <= |s.changes| && StaysAbove(UndoTo(s, c), floor, run[1..]))
  }

  ghost function Run(s: BufferState, floor: nat, run: seq<Command>): (r: BufferState)
    requires s.entries.Valid() && floor <= |s.changes| && StaysAbove(s, floor, run)
    ensures r.entries.Valid() && floor <= |r.changes|
    decreases |run|
  {
    if run == [] then s else
      match run[0]
      case DoQueue(m) => Run(Queued(s, m), floor, run[1..])
      case DoRollback(c) => Run(UndoTo(s, c), floor, run[1..])
  }

  /** Whatever is queued, checkpointed and rolled back after a checkpoint, however nested,
      rolling back to it restores the buffer it was taken from, insertion order included. */
  lemma {:induction false} RollbackRestoresCheckpoint(s: BufferState, floor: nat, run: seq<Command>)
    requires s.entries.Valid() && floor <= |s.changes| && StaysAbove(s, floor, run)
    ensures UndoTo(Run(s, floor, run), floor) == UndoTo(s, floor)
    ensures floor == |s.changes| ==> UndoTo(Run(s, floor, run), floor) == s
    decreases |run|
  {
    if run == [] {
    } else {
      match run[0]
      case DoQueue(m) =>
        UndoQueued(s, m);
        RollbackRestoresCheckpoint(Queued(s, m), floor, run[1..]);
      case DoRollback(c) =>
        UndoToTwice(s, c, floor);
        RollbackRestoresCheckpoint(UndoTo(s, c), floor, run[1..]);
    }
  }

  /** A checkpoint above a later rollback is not protected: `StaysAbove` is what makes it safe. */
  lemma CheckpointBelowFloorIsLost(a: AssetStateRow, b: AssetStateRow)
    requires a.id != b.id
    ensures var s := Queued(EMPTY_BUFFER, Insert(a, 0));
      var t := Queued(UndoTo(s, 0), Insert(b, 0));
      |s.changes| == |t.changes| && UndoTo(t, |s.changes|) != s
  {
    var s := Queued(EMPTY_BUFFER, Insert(a, 0));
    UndoQueued(EMPTY_BUFFER, Insert(a, 0));
    assert UndoTo(s, 0) == UndoTo(EMPTY_BUFFER, 0) == EMPTY_BUFFER;
    var t := Queued(EMPTY_BUFFER, Insert(b, 0));
    assert a.id in s.entries.values && a.id !in t.entries.values;
  }

  lemma {:induction false} UndoQueuedAll(s: BufferState, ms: seq<BufferedMutation>)
    requires s.entries.Valid()
    ensures UndoTo(QueuedAll(s, ms), |s.changes|) == s
  {
    if ms != [] {
      var front := ms[..|ms| - 1];
      UndoQueuedAll(s, front);
      UndoQueued(QueuedAll(s, front), ms[|ms| - 1]);
    }
  }

  // ---- What an entry says about the queued mutations ----

  /** The first row an asset had, the last it got, and the greatest block in which it changed. */
  ghost predicate Summarises(ms: seq<BufferedMutation>, id: string, e: NetEntry) {
    && (exists i :: FirstOf(ms, id, i) && e.firstOld == ms[i].IncomingOld())
    && (exists i :: LastOf(ms, id, i) && e.lastNew == ms[i].IncomingNew())
    && (exists i :: 0 <= i < |ms| && ms[i].Id() == id && e.blockNum == ms[i].blockNum)
    && (forall i :: 0 <= i < |ms| && ms[i].Id() == id ==> ms[i].blockNum <= e.blockNum)
  }

  ghost predicate FirstOf(ms: seq<BufferedMutation>, id: string, i: int) {
    0 <= i < |ms| && ms[i].Id() == id && forall j :: 0 <= j < i ==> ms[j].Id() != id
  }

  ghost predicate LastOf(ms: seq<BufferedMutation>, id: string, i: int) {
    0 <= i < |ms| && ms[i].Id() == id && forall j :: i < j < |ms| ==> ms[j].Id() != id
  }

  lemma SummaryGrows(front: seq<BufferedMutation>, m: BufferedMutation, id: string, e: NetEntry)
    requires Summarises(front, id, e)
    ensures Summarises(front + [m], id, if m.Id() == id then Merge(Some(e), m) else e)
  {
    var ms := front + [m];
    var i :| FirstOf(front, id, i) && e.firstOld == front[i].IncomingOld();
    assert FirstOf(ms, id, i);
    var k :| LastOf(front, id, k) && e.lastNew == front[k].IncomingNew();
    var b :| 0 <= b < |front| && front[b].Id() == id && e.blockNum == front[b].blockNum;
    assert ms[b] == front[b] && ms[|front|] == m;
    if m.Id() == id { assert LastOf(ms, id, |front|); } else { assert LastOf(ms, id, k); }
  }

  lemma SummaryStarts(front: seq<BufferedMutation>, m: BufferedMutation)
    requires forall i :: 0 <= i < |front| ==> front[i].Id() != m.Id()
    ensures Summarises(front + [m], m.Id(), Merge(None, m))
  {
    var ms, n := front + [m], |front|;
    assert ms[n] == m && FirstOf(ms, m.Id(), n) && LastOf(ms, m.Id(), n);
  }

  /** Of what has been queued the buffer keeps, for exactly the assets that were changed, the summary. */
  lemma {:induction false} EntriesSummarise(ms: seq<BufferedMutation>, id: string)
    ensures var values := QueuedAll(EMPTY_BUFFER, ms).entries.values;
      && (id in values <==> exists i :: 0 <= i < |ms| && ms[i].Id() == id)
      && (id in values ==> Summarises(ms, id, values[id]))
  {
    hide Summarises, Merge;
    assert EMPTY_BUFFER.entries.Valid();
    if ms != [] {
      var front, m := ms[..|ms| - 1], ms[|ms| - 1];
      EntriesSummarise(front, id);
      assert ms == front + [m] && ms[|front|] == m;
      var before := QueuedAll(EMPTY_BUFFER, front).entries.values;
      if id in before {
        SummaryGrows(front, m, id, before[id]);
      } else if m.Id() == id {
        SummaryStarts(front, m);
      }
    }
  }
}
