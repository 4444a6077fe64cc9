/** Flushing the buffer into the stored root: the incremental root agrees with the full scan.
    (packages/indexer/src/db/queries/state-root.ts) */
module StateRootFlush {
  import opened Prelude
  import opened OrderedMaps
  import opened StateRootHash
  import opened StateRootBuffers

  /** The stored summary of the asset table. */
  datatype StateMeta = StateMeta(stateRoot: Root, assetCount: int, lastBlockNum: nat)

  const EMPTY_META := StateMeta(EMPTY_ROOT, 0, 0)

  ghost predicate Describes(hash: RowHash, meta: StateMeta, t: Table) {
    meta.stateRoot == TableRoot(hash, t) && meta.assetCount == |t|
  }

  /** The mutation names the row that is really there. */
  predicate Exact(t: Table, m: BufferedMutation) {
    match m
    case Insert(n, _) => n.id !in t
    case Update(o, n, _) => o.id == n.id && o.id in t && t[o.id] == o
    case Delete(o, _) => o.id in t && t[o.id] == o
  }

  function WithMutation(t: Table, m: BufferedMutation): Table {
    if m.Delete? then t - {m.oldRow.id} else t[m.newRow.id := m.newRow]
  }

  function WithMutations(t: Table, ms: seq<BufferedMutation>): Table {
    if ms == [] then t else WithMutation(WithMutations(t, ms[..|ms| - 1]), ms[|ms| - 1])
  }

  predicate ExactAll(t: Table, ms: seq<BufferedMutation>) {
    ms == [] ||
    (ExactAll(t, ms[..|ms| - 1]) && Exact(WithMutations(t, ms[..|ms| - 1]), ms[|ms| - 1]))
  }

  /** The entries are the net difference between the table at the start and the table now. */
  ghost predicate Tracks(base: Table, now: Table, entries: OrderedMap<string, NetEntry>) {
    && entries.Valid()
    && (forall id :: id in entries.values ==>
          && entries.values[id].firstOld == Lookup(base, id)
          && entries.values[id].lastNew == Lookup(now, id))
    && (forall id :: id !in entries.values ==> Lookup(base, id) == Lookup(now, id))
  }

  lemma TracksNothing(t: Table)
    ensures Tracks(t, t, EMPTY_BUFFER.entries)
  {}

  lemma QueueKeepsTracking(base: Table, now: Table, s: BufferState, m: BufferedMutation)
    requires Tracks(base, now, s.entries) && Exact(now, m)
    ensures Tracks(base, WithMutation(now, m), Queued(s, m).entries)
  {}

  lemma {:induction false} QueueAllKeepsTracking(base: Table, now: Table, s: BufferState, ms: seq<BufferedMutation>)
    requires Tracks(base, now, s.entries) && ExactAll(now, ms)
    ensures Tracks(base, WithMutations(now, ms), QueuedAll(s, ms).entries)
  {
    if ms != [] {
      var front := ms[..|ms| - 1];
      QueueAllKeepsTracking(base, now, s, front);
      QueueKeepsTracking(base, WithMutations(now, front), QueuedAll(s, front), ms[|ms| - 1]);
    }
  }

  /** XOR the old row out, XOR the new row in; an entry with neither is skipped. */
  function EntryApplied(hash: RowHash, root: Root, e: NetEntry): Root {
    var without := if e.firstOld.Some? then Xor(root, hash(e.firstOld.value)) else root;
    if e.lastNew.Some? then Xor(without, hash(e.lastNew.value)) else without
  }

  function CountDelta(e: NetEntry): int {
    if e.firstOld.None? && e.lastNew.Some? then 1
    else if e.firstOld.Some? && e.lastNew.None? then -1
    else 0
  }

  function FlushedRoot(hash: RowHash, root: Root, es: seq<NetEntry>): Root {
    if es == [] then root
    else EntryApplied(hash, FlushedRoot(hash, root, es[..|es| - 1]), es[|es| - 1])
  }

  function FlushedCount(count: int, es: seq<NetEntry>): int {
    if es == [] then count else FlushedCount(count, es[..|es| - 1]) + CountDelta(es[|es| - 1])
  }

  function Replaced(t: Table, id: string, row: Option<AssetStateRow>): Table {
    match row case Some(r) => t[id := r] case None => t - {id}
  }

  /** `base` with the rows of `ids` brought up to date from `now`, one after the other. */
  function Updated(base: Table, now: Table, ids: seq<string>): Table {
    if ids == [] then base
    else Replaced(Updated(base, now, ids[..|ids| - 1]), ids[|ids| - 1], Lookup(now, ids[|ids| - 1]))
  }

  lemma {:induction false} UpdatedLookup(base: Table, now: Table, ids: seq<string>, id: string)
    ensures Lookup(Updated(base, now, ids), id) == Lookup(if id in ids then now else base, id)
  {
    if ids != [] {
      UpdatedLookup(base, now, ids[..|ids| - 1], id);
      assert ids == ids[..|ids| - 1] + [ids[|ids| - 1]];
    }
  }

  /** Replacing what a table holds at one key moves its summary by that key's entry. */
  lemma OneEntry(hash: RowHash, t: Table, id: string, e: NetEntry)
    requires e.firstOld == Lookup(t, id)
    requires e.lastNew.Some? ==> e.lastNew.value.id == id
    ensures TableRoot(hash, Replaced(t, id, e.lastNew)) == EntryApplied(hash, TableRoot(hash, t), e)
    ensures |Replaced(t, id, e.lastNew)| == |t| + CountDelta(e)
  {
    match e.lastNew {
      case Some(row) =>
        TableRootPut(hash, t, row);
        if id in t { assert t[id := row].Keys == t.Keys; } else { assert t[id := row].Keys == t.Keys + {id}; }
      case None =>
        if id in t { TableRootRemove(hash, t, id); } else { assert t - {id} == t; }
        RemovedSize(t, id);
    }
  }

  lemma RemovedSize(t: Table, id: string)
    ensures |t - {id}| == |t| - (if id in t then 1 else 0)
  {
    assert (t - {id}).Keys == t.Keys - {id};
  }

  /** The entries, visited in the order of `order`. */
  ghost predicate Visits(entries: OrderedMap<string, NetEntry>, order: seq<string>, es: seq<NetEntry>) {
    && |es| == |order|
    && (forall i, j :: 0 <= i < j < |order| ==> order[i] != order[j])
    && (forall i :: 0 <= i < |es| ==> order[i] in entries.values && es[i] == entries.values[order[i]])
  }

  lemma {:induction false} FlushSummarises(
      hash: RowHash, base: Table, now: Table, entries: OrderedMap<string, NetEntry>,
      order: seq<string>, es: seq<NetEntry>)
    requires KeyedById(now) && Tracks(base, now, entries) && Visits(entries, order, es)
    ensures FlushedRoot(hash, TableRoot(hash, base), es) == TableRoot(hash, Updated(base, now, order))
    ensures FlushedCount(|base|, es) == |Updated(base, now, order)|
    decreases |order|
  {
    if es != [] {
      var n := |es| - 1;
      FlushSummarises(hash, base, now, entries, order[..n], es[..n]);
      UpdatedLookup(base, now, order[..n], order[n]);
      OneEntry(hash, Updated(base, now, order[..n]), order[n], es[n]);
    }
  }

  /** In whatever order the entries are visited, flushing them turns the summary of the table
      at the start of the transaction into the summary of the table now. */
  lemma FlushAgreesWithFullScan(
      hash: RowHash, base: Table, now: Table, entries: OrderedMap<string, NetEntry>,
      order: seq<string>, es: seq<NetEntry>)
    requires KeyedById(now) && Tracks(base, now, entries) && Visits(entries, order, es)
    requires forall id :: id in entries.values ==> id in order
    ensures FlushedRoot(hash, TableRoot(hash, base), es) == TableRoot(hash, now)
    ensures FlushedCount(|base|, es) == |now|
  {
    FlushSummarises(hash, base, now, entries, order, es);
    var t := Updated(base, now, order);
    forall id ensures Lookup(t, id) == Lookup(now, id) { UpdatedLookup(base, now, order, id); }
    SameLookups(t, now);
  }

  lemma SameLookups(a: Table, b: Table)
    requires forall id :: Lookup(a, id) == Lookup(b, id)
    ensures a == b
  {
    assert forall id :: id in a <==> Lookup(a, id).Some?;
    assert forall id :: id in b <==> Lookup(b, id).Some?;
    assert forall id :: id in a ==> Lookup(a, id).value == a[id] && Lookup(b, id).value == b[id];
  }

  function OrderedValues(values: map<string, NetEntry>, keys: seq<string>): (es: seq<NetEntry>)
    requires forall k :: k in keys ==> k in values
    ensures |es| == |keys| && forall i :: 0 <= i < |keys| ==> es[i] == values[keys[i]]
  {
    if keys == [] then []
    else OrderedValues(values, keys[..|keys| - 1]) + [values[keys[|keys| - 1]]]
  }

  /** The entries in insertion order. */
  function EntriesInOrder(s: BufferState): seq<NetEntry>
    requires s.entries.Valid()
  {
    OrderedValues(s.entries.values, s.entries.keys)
  }

  /** One read and one write of the summary; nothing happens when the buffer is empty. */
  method FlushStateRootBuffer(hash: RowHash, buffer: StateRootBuffer, meta: StateMeta) returns (r: StateMeta)
    requires buffer.Valid()
    modifies buffer
    ensures buffer.Valid() && buffer.State().entries == Empty()
    ensures forall base, now |
      KeyedById(now) && Tracks(base, now, old(buffer.State()).entries) ::
      Describes(hash, meta, base) ==> Describes(hash, r, now)
    ensures var es := EntriesInOrder(old(buffer.State()));
      r.stateRoot == FlushedRoot(hash, meta.stateRoot, es) && r.assetCount == FlushedCount(meta.assetCount, es)
    ensures exists max: nat | IsMaxBlock(old(buffer.State()), max) ::
      r.lastBlockNum == Max(meta.lastBlockNum, max)
  {
    hide TableRoot, Tracks, KeyedById, FlushedRoot, FlushedCount, OrderedValues;
    var empty := buffer.IsEmpty();
    var es := buffer.Iter();
    var max := buffer.MaxBlockNum();
    assert es == EntriesInOrder(buffer.State());
    FlushedEntries(hash, buffer.State());
    if empty {
      NothingFlushed(hash, meta);
      return meta;
    }
    var root, countDelta := FlushEntries(hash, es, meta.stateRoot, meta.assetCount);
    buffer.Clear();
    return StateMeta(root, meta.assetCount + countDelta, Max(meta.lastBlockNum, max));
  }

  /** The flush before the checkpoint, and the automatic one before COMMIT, which finds the buffer empty. */
  method FlushBeforeCommit(hash: RowHash, buffer: StateRootBuffer, meta: StateMeta)
    returns (atCheckpoint: StateMeta, atCommit: StateMeta)
    requires buffer.Valid()
    modifies buffer
    ensures buffer.Valid() && atCommit == atCheckpoint
    ensures forall base, now |
      KeyedById(now) && Tracks(base, now, old(buffer.State()).entries) ::
      Describes(hash, meta, base) ==> Describes(hash, atCheckpoint, now)
  {
    hide TableRoot, Tracks, KeyedById, Describes, FlushedRoot, FlushedCount;
    atCheckpoint := FlushStateRootBuffer(hash, buffer, meta);
    assert EntriesInOrder(buffer.State()) == [];
    NothingFlushed(hash, atCheckpoint);
    atCommit := FlushStateRootBuffer(hash, buffer, atCheckpoint);
  }

  lemma NothingFlushed(hash: RowHash, meta: StateMeta)
    ensures FlushedRoot(hash, meta.stateRoot, []) == meta.stateRoot && FlushedCount(meta.assetCount, []) == meta.assetCount
  {}

  /** The loop over the entries: old row out, new row in. */
  method FlushEntries(hash: RowHash, es: seq<NetEntry>, stateRoot: Root, ghost count: int)
    returns (root: Root, countDelta: int)
    ensures root == FlushedRoot(hash, stateRoot, es) && count + countDelta == FlushedCount(count, es)
  {
    hide Xor;
    root, countDelta := stateRoot, 0;
    for i := 0 to |es|
      invariant root == FlushedRoot(hash, stateRoot, es[..i])
      invariant count + countDelta == FlushedCount(count, es[..i])
    {
      var NetEntry(firstOld, lastNew, _) := es[i];
      assert es[..i + 1][..i] == es[..i];
      if firstOld.None? && lastNew.None? { continue; }
      if firstOld.Some? {
        var xored := XorInto(root, hash(firstOld.value));
        root := xored.value;
      }
      if lastNew.Some? {
        var xored := XorInto(root, hash(lastNew.value));
        root := xored.value;
      }
      if firstOld.None? && lastNew.Some? { countDelta := countDelta + 1; }
      else if firstOld.Some? && lastNew.None? { countDelta := countDelta - 1; }
    }
    assert es[..|es|] == es;
  }

  lemma FlushedEntries(hash: RowHash, s: BufferState)
    requires s.entries.Valid()
    ensures forall base, now | KeyedById(now) && Tracks(base, now, s.entries) ::
      FlushedRoot(hash, TableRoot(hash, base), EntriesInOrder(s)) == TableRoot(hash, now) &&
      FlushedCount(|base|, EntriesInOrder(s)) == |now|
  {
    var es := EntriesInOrder(s);
    forall base, now | KeyedById(now) && Tracks(base, now, s.entries)
      ensures FlushedRoot(hash, TableRoot(hash, base), es) == TableRoot(hash, now)
      ensures FlushedCount(|base|, es) == |now|
    {
      FlushAgreesWithFullScan(hash, base, now, s.entries, s.entries.keys, es);
    }
  }
}
