/** The rolling XOR state root: one 32-byte hash per asset row, combined by XOR.
    (packages/indexer/src/utils/state-root-hash.ts) */
module StateRootHash {
  import opened Prelude

  const STATE_ROOT_BYTES := 32

  type Bytes = seq<bv8>
  type Root = b: Bytes | |b| == STATE_ROOT_BYTES witness seq(STATE_ROOT_BYTES, _ => 0)

  /** The ownership fields that enter the hash. */
  datatype AssetStateRow = AssetStateRow(
    id: string,
    owner: string,
    previousOwner: Option<string>,
    ownerAction: string,
    ownerOperationId: string,
    ownerBlockNum: nat)

  /** SHA-256 over the canonical row text; only its being a function is used. */
  type RowHash = AssetStateRow -> Root

  function Zeros(n: nat): (bytes: seq<bv8>)
    ensures |bytes| == n && forall i :: 0 <= i < n ==> bytes[i] == 0
  {
    if n == 0 then [] else Zeros(n - 1) + [0]
  }

  const EMPTY_ROOT: Root := Zeros(STATE_ROOT_BYTES)

  function Xor(a: Root, b: Root): Root {
    seq(STATE_ROOT_BYTES, i requires 0 <= i < STATE_ROOT_BYTES => a[i] ^ b[i])
  }

  /** Fails on a wrong length, and otherwise fills a fresh buffer byte by byte. */
  method XorInto(target: Bytes, operand: Bytes) returns (r: Result<Bytes>)
    ensures r.Done? <==> |target| == STATE_ROOT_BYTES && |operand| == STATE_ROOT_BYTES
    ensures r.Done? ==> r.value == Xor(target, operand)
  {
    if |target| != STATE_ROOT_BYTES { return Error("xorInto target: wrong length"); }
    if |operand| != STATE_ROOT_BYTES { return Error("xorInto operand: wrong length"); }
    var result := new bv8[STATE_ROOT_BYTES];
    for i := 0 to STATE_ROOT_BYTES
      invariant forall k :: 0 <= k < i ==> result[k] == target[k] ^ operand[k]
    {
      result[i] := target[i] ^ operand[i];
    }
    assert result[..] == Xor(target, operand);
    return Done(result[..]);
  }

  // XOR makes the roots an abelian group in which every root is its own inverse.

  lemma XorAssoc(a: Root, b: Root, c: Root)
    ensures Xor(Xor(a, b), c) == Xor(a, Xor(b, c))
  {
    forall i | 0 <= i < STATE_ROOT_BYTES
      ensures Xor(Xor(a, b), c)[i] == Xor(a, Xor(b, c))[i]
    {
      ByteXorAssoc(a[i], b[i], c[i]);
    }
  }

  lemma ByteXorAssoc(a: bv8, b: bv8, c: bv8)
    ensures (a ^ b) ^ c == a ^ (b ^ c)
  {}

  lemma XorComm(a: Root, b: Root)
    ensures Xor(a, b) == Xor(b, a)
  {
    forall i | 0 <= i < STATE_ROOT_BYTES ensures Xor(a, b)[i] == Xor(b, a)[i] {
      ByteXorComm(a[i], b[i]);
    }
  }

  lemma ByteXorComm(a: bv8, b: bv8)
    ensures a ^ b == b ^ a
  {}

  lemma XorSelf(a: Root)
    ensures Xor(a, a) == EMPTY_ROOT
    ensures Xor(a, EMPTY_ROOT) == a
  {
    forall i | 0 <= i < STATE_ROOT_BYTES
      ensures Xor(a, a)[i] == EMPTY_ROOT[i] && Xor(a, EMPTY_ROOT)[i] == a[i]
    {
      ByteXorSelf(a[i]);
    }
  }

  lemma ByteXorSelf(a: bv8)
    ensures a ^ a == 0 && a ^ 0 == a
  {}

  /** XORing the same hash in twice is a no-op, wherever the two occurrences stand. */
  lemma XorCancel(a: Root, h: Root)
    ensures Xor(Xor(a, h), h) == a
  {
    XorAssoc(a, h, h);
    XorSelf(h);
    XorSelf(a);
  }

  lemma XorSwap(a: Root, g: Root, h: Root)
    ensures Xor(Xor(a, g), h) == Xor(Xor(a, h), g)
  {
    XorAssoc(a, g, h);
    XorComm(g, h);
    XorAssoc(a, h, g);
  }

  function Scan(hash: RowHash, rows: seq<AssetStateRow>): Root {
    if rows == [] then EMPTY_ROOT else Xor(Scan(hash, rows[..|rows| - 1]), hash(rows[|rows| - 1]))
  }

  /** The reference full scan, as the loop over an iteration order of the rows. */
  method ComputeStateRootFullScan(hash: RowHash, rows: seq<AssetStateRow>) returns (root: Root)
    ensures root == Scan(hash, rows)
  {
    root := EMPTY_ROOT;
    for i := 0 to |rows|
      invariant root == Scan(hash, rows[..i])
    {
      var rowHash := hash(rows[i]);
      var next := XorInto(root, rowHash);
      root := next.value;
      assert rows[..i + 1][..i] == rows[..i];
    }
    assert rows[..|rows|] == rows;
  }

  type Table = map<string, AssetStateRow>

  ghost predicate KeyedById(t: Table) {
    forall id :: id in t ==> t[id].id == id
  }

  /** The root a table stands for, independent of any order. */
  ghost function TableRoot(hash: RowHash, t: Table): Root
    decreases |t|
  {
    if t == map[] then EMPTY_ROOT else
      var id :| id in t;
      Xor(TableRoot(hash, t - {id}), hash(t[id]))
  }

  /** Any row may be split off, not only the one the definition happens to pick. */
  lemma {:induction false} TableRootSplit(hash: RowHash, t: Table, id: string)
    requires id in t
    ensures TableRoot(hash, t) == Xor(TableRoot(hash, t - {id}), hash(t[id]))
    decreases |t|
  {
    var pick :| pick in t && TableRoot(hash, t) == Xor(TableRoot(hash, t - {pick}), hash(t[pick]));
    if pick != id {
      TableRootSplit(hash, t - {pick}, id);
      TableRootSplit(hash, t - {id}, pick);
      assert t - {pick} - {id} == t - {id} - {pick};
      XorSwap(TableRoot(hash, t - {pick} - {id}), hash(t[id]), hash(t[pick]));
    }
  }

  /** `rows` lists every row of the table exactly once, in some order. */
  ghost predicate Lists(rows: seq<AssetStateRow>, t: Table) {
    && (forall i :: 0 <= i < |rows| ==> rows[i].id in t && t[rows[i].id] == rows[i])
    && (forall i, j :: 0 <= i < j < |rows| ==> rows[i].id != rows[j].id)
    && |rows| == |t|
  }

  /** Whatever order the rows are visited in, the full scan computes the table's root. */
  lemma {:induction false} ScanIsOrderIndependent(hash: RowHash, rows: seq<AssetStateRow>, t: Table)
    requires Lists(rows, t)
    ensures Scan(hash, rows) == TableRoot(hash, t)
    decreases |rows|
  {
    if rows == [] {
    } else {
      var n := |rows| - 1;
      var last := rows[n];
      var rest := t - {last.id};
      assert forall i :: 0 <= i < n ==> rows[i].id != last.id;
      assert rest.Keys == t.Keys - {last.id};
      ScanIsOrderIndependent(hash, rows[..n], rest);
      TableRootSplit(hash, t, last.id);
    }
  }

  lemma EmptyTableRoot(hash: RowHash)
    ensures TableRoot(hash, map[]) == EMPTY_ROOT
  {}

  /** Inserting, replacing and deleting a row move the root by the hashes of the old and new row. */
  lemma TableRootPut(hash: RowHash, t: Table, row: AssetStateRow)
    ensures row.id !in t ==> TableRoot(hash, t[row.id := row]) == Xor(TableRoot(hash, t), hash(row))
    ensures row.id in t ==>
      TableRoot(hash, t[row.id := row]) == Xor(Xor(TableRoot(hash, t), hash(t[row.id])), hash(row))
  {
    var t' := t[row.id := row];
    TableRootSplit(hash, t', row.id);
    assert t' - {row.id} == t - {row.id};
    if row.id in t {
      TableRootSplit(hash, t, row.id);
      XorCancel(TableRoot(hash, t - {row.id}), hash(t[row.id]));
    } else {
      assert t - {row.id} == t;
    }
  }

  lemma TableRootRemove(hash: RowHash, t: Table, id: string)
    requires id in t
    ensures TableRoot(hash, t - {id}) == Xor(TableRoot(hash, t), hash(t[id]))
  {
    TableRootSplit(hash, t, id);
    XorCancel(TableRoot(hash, t - {id}), hash(t[id]));
  }
}
