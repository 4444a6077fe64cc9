/** Reading a block range page by page from one endpoint, and failing over between endpoints.
    (packages/indexer/src/scanner/hive-client.ts) */
module HiveClient {
  import opened Prelude
  import opened Digits
  import opened HiveOperationIds
  import opened EndpointHealth

  const INITIAL_HAFAH_CURSOR := "-1"
  const FINAL_HAFAH_CURSOR := "0"
  const HAFAH_MAX_PAGES := 100

  datatype HiveOp = HiveOp(block: nat, operationId: OpId, protocolId: string, payload: string)

  datatype Page = Page(ops: seq<HiveOp>, next: Option<string>)

  /** What an endpoint answers at each cursor. No cursor is asked for twice, so this is any behaviour. */
  type Server = string -> Result<Page>

  predicate NumericText(s: string) {
    s != "" && s[0] != '0' && forall i :: 0 <= i < |s| ==> '0' <= s[i] <= '9'
  }

  predicate ValidCursor(cursor: string) {
    cursor == INITIAL_HAFAH_CURSOR || cursor == FINAL_HAFAH_CURSOR || NumericText(cursor)
  }

  predicate LegalRange(from: int, to: int, pageSize: int) {
    SafeInteger(from) && SafeInteger(to) && 0 <= from <= to && SafeInteger(pageSize) && pageSize > 0
  }

  /** A page whose ids are numeric and whose next cursor is well formed; anything else is refused. */
  ghost predicate WellFormedPage(p: Page) {
    && (forall op :: op in p.ops ==> op.operationId.Valid())
    && (p.next.Some? ==> ValidCursor(p.next.value))
  }

  /** Answers that do not parse come back as errors. */
  ghost predicate Parsed(server: Server) {
    forall c :: server(c).Done? ==> WellFormedPage(server(c).value)
  }

  function FetchPage(server: Server, cursor: string): Result<Page> {
    if ValidCursor(cursor) then server(cursor) else Error("Invalid HafAH cursor")
  }

  predicate LastPage(p: Page) { p.next.None? || p.next.value == FINAL_HAFAH_CURSOR }

  // ---- The trail of cursors a reader follows ----

  ghost function CursorAt(server: Server, k: nat): Option<string>
    decreases k, 0
  {
    if k == 0 then Some(INITIAL_HAFAH_CURSOR)
    else
      match PageAt(server, k - 1)
      case Some(p) => if LastPage(p) then None else p.next
      case None => None
  }

  ghost function PageAt(server: Server, k: nat): Option<Page>
    decreases k, 1
  {
    match CursorAt(server, k)
    case None => None
    case Some(c) => var r := FetchPage(server, c); if r.Done? then Some(r.value) else None
  }

  ghost function OpsThrough(server: Server, n: nat): seq<HiveOp> {
    if n == 0 then []
    else OpsThrough(server, n - 1) + if PageAt(server, n - 1).Some? then PageAt(server, n - 1).value.ops else []
  }

  function OfProtocol(ops: seq<HiveOp>, protocolId: string): seq<HiveOp> {
    if ops == [] then []
    else
      OfProtocol(ops[..|ops| - 1], protocolId)
      + if ops[|ops| - 1].protocolId == protocolId then [ops[|ops| - 1]] else []
  }

  /** `picked` is what stands at these positions, in order, and the positions are those of the protocol's operations. */
  ghost predicate PickedAt(ops: seq<HiveOp>, protocolId: string, picked: seq<HiveOp>, positions: seq<nat>) {
    && |picked| == |positions|
    && (forall k :: 0 <= k < |positions| ==> positions[k] < |ops| && picked[k] == ops[positions[k]])
    && (forall k, l :: 0 <= k < l < |positions| ==> positions[k] < positions[l])
    && (forall i: nat :: i in positions <==> i < |ops| && ops[i].protocolId == protocolId)
  }

  /** Exactly the protocol's operations, in the order in which they were listed. */
  ghost predicate Picks(ops: seq<HiveOp>, protocolId: string, picked: seq<HiveOp>) {
    exists positions :: PickedAt(ops, protocolId, picked, positions)
  }

  lemma {:induction false} OfProtocolPicks(ops: seq<HiveOp>, protocolId: string)
    ensures Picks(ops, protocolId, OfProtocol(ops, protocolId))
  {
    hide PickedAt;
    if ops == [] {
      NothingPicked(protocolId);
    } else {
      var n := |ops| - 1;
      OfProtocolPicks(ops[..n], protocolId);
      var positions :| PickedAt(ops[..n], protocolId, OfProtocol(ops[..n], protocolId), positions);
      var picked := OfProtocol(ops[..n], protocolId);
      OnePositionMore(ops, protocolId, picked, positions);
      assert OfProtocol(ops, protocolId) == if ops[n].protocolId == protocolId then picked + [ops[n]] else picked;
    }
  }

  lemma NothingPicked(protocolId: string)
    ensures PickedAt([], protocolId, [], [])
  {}

  lemma OnePositionMore(ops: seq<HiveOp>, protocolId: string, picked: seq<HiveOp>, positions: seq<nat>)
    requires ops != [] && PickedAt(ops[..|ops| - 1], protocolId, picked, positions)
    ensures var n := |ops| - 1;
      if ops[n].protocolId == protocolId then PickedAt(ops, protocolId, picked + [ops[n]], positions + [n])
      else PickedAt(ops, protocolId, picked, positions)
  {
    var n := |ops| - 1;
    forall k | 0 <= k < |positions| ensures positions[k] < n && ops[positions[k]] == ops[..n][positions[k]] {
      assert positions[k] in positions;
    }
    forall i: nat ensures i in positions + [n] <==> i in positions || i == n {}
  }

  ghost predicate InRange(ops: seq<HiveOp>, from: int, to: int) {
    forall op :: op in ops ==> from <= op.block <= to
  }

  /** No two operations have numerically the same id. */
  ghost predicate DistinctIds(ops: seq<HiveOp>)
    requires forall op :: op in ops ==> op.operationId.Valid()
  {
    forall i, j :: 0 <= i < j < |ops| ==> Value(ops[i].operationId) != Value(ops[j].operationId)
  }

  ghost predicate DistinctThrough(server: Server, n: nat)
    requires Parsed(server)
  {
    OpsAreValid(server, n);
    DistinctIds(OpsThrough(server, n))
  }

  /** The trail ends with its n-th page, within the page limit, and everything on it is acceptable. */
  ghost predicate Readable(server: Server, from: int, to: int, n: nat)
    requires Parsed(server)
  {
    && 1 <= n <= HAFAH_MAX_PAGES
    && PageAt(server, n - 1).Some? && LastPage(PageAt(server, n - 1).value)
    && InRange(OpsThrough(server, n), from, to)
    && DistinctThrough(server, n)
  }

  lemma {:induction false} OpsAreValid(server: Server, n: nat)
    requires Parsed(server)
    ensures forall op :: op in OpsThrough(server, n) ==> op.operationId.Valid()
  {
    if n > 0 {
      OpsAreValid(server, n - 1);
      if PageAt(server, n - 1).Some? { assert WellFormedPage(server(CursorAt(server, n - 1).value).value); }
    }
  }

  /** A trail that has reached page `n` has a page at every earlier step. */
  lemma {:induction false} TrailIsUnbroken(server: Server, k: nat, n: nat)
    requires k <= n && CursorAt(server, n).Some?
    ensures CursorAt(server, k).Some?
    ensures k < n ==> PageAt(server, k).Some? && !LastPage(PageAt(server, k).value)
    decreases n - k
  {
    if k < n { TrailIsUnbroken(server, k + 1, n); }
  }

  lemma {:induction false} SameFromThere(server: Server, i: nat, j: nat, m: nat)
    requires CursorAt(server, i) == CursorAt(server, j)
    ensures CursorAt(server, i + m) == CursorAt(server, j + m)
  {
    if m > 0 { SameFromThere(server, i, j, m - 1); }
  }

  /** A trail that ends never visits a cursor twice: the cycle check only stops runs without an end. */
  lemma EndingTrailHasDistinctCursors(server: Server, n: nat, i: nat, j: nat)
    requires n >= 1 && PageAt(server, n - 1).Some? && LastPage(PageAt(server, n - 1).value)
    requires i < j < n
    ensures CursorAt(server, i) != CursorAt(server, j)
  {
    if CursorAt(server, i) == CursorAt(server, j) {
      TrailIsUnbroken(server, i + (n - j), n - 1);
      SameFromThere(server, i, j, n - j);
    }
  }

  // ---- Reading ----

  ghost function Keys(ops: seq<HiveOp>): set<string> { set op | op in ops :: OperationIdKey(op.operationId) }

  lemma KeysTellIdsApart(ops: seq<HiveOp>, op: HiveOp)
    requires op.operationId.Valid() && forall o :: o in ops ==> o.operationId.Valid()
    ensures OperationIdKey(op.operationId) in Keys(ops) <==>
      exists i :: 0 <= i < |ops| && Value(ops[i].operationId) == Value(op.operationId)
    ensures DistinctIds(ops) && OperationIdKey(op.operationId) !in Keys(ops) ==> DistinctIds(ops + [op])
  {
    forall i | 0 <= i < |ops|
      ensures OperationIdKey(ops[i].operationId) == OperationIdKey(op.operationId) <==>
              Value(ops[i].operationId) == Value(op.operationId)
    {
      SameKeyIffSameNumber(ops[i].operationId, op.operationId);
    }
    if i :| 0 <= i < |ops| && Value(ops[i].operationId) == Value(op.operationId) {
      assert ops[i] in ops;
    }
  }

  /** Fails on the first operation out of range or with an id seen before, on this page or an earlier one. */
  method ValidateHafAHPage(ghost earlier: seq<HiveOp>, ops: seq<HiveOp>, from: int, to: int, seen: set<string>)
    returns (r: Result<set<string>>)
    requires forall op :: op in earlier + ops ==> op.operationId.Valid()
    requires DistinctIds(earlier) && seen == Keys(earlier)
    ensures r.Done? <==> InRange(ops, from, to) && DistinctIds(earlier + ops)
    ensures r.Done? ==> r.value == Keys(earlier + ops)
  {
    hide Keys, DistinctIds, OperationIdKey;
    var keys := seen;
    assert earlier + ops[..0] == earlier;
    for i := 0 to |ops|
      invariant keys == Keys(earlier + ops[..i])
      invariant InRange(ops[..i], from, to) && DistinctIds(earlier + ops[..i])
    {
      var op := ops[i];
      assert op in ops && earlier + ops[..i + 1] == earlier + ops[..i] + [op] && ops[..i + 1] == ops[..i] + [op];
      if op.block < from || op.block > to { return Error("operation outside requested range"); }
      var key := OperationIdKey(op.operationId);
      KeysTellIdsApart(earlier + ops[..i], op);
      if key in keys {
        RepeatedId(earlier + ops[..i], op, ops[i + 1..]);
        assert earlier + ops == earlier + ops[..i] + [op] + ops[i + 1..];
        return Error("duplicate operation_id");
      }
      keys := keys + {key};
      KeysOfOneMore(earlier + ops[..i], op);
    }
    assert ops[..|ops|] == ops;
    return Done(keys);
  }

  lemma KeysOfOneMore(ops: seq<HiveOp>, op: HiveOp)
    ensures Keys(ops + [op]) == Keys(ops) + {OperationIdKey(op.operationId)}
  {}

  lemma RepeatedId(before: seq<HiveOp>, op: HiveOp, after: seq<HiveOp>)
    requires forall o :: o in before + [op] + after ==> o.operationId.Valid()
    requires op.operationId.Valid() && forall o :: o in before ==> o.operationId.Valid()
    requires exists k :: 0 <= k < |before| && Value(before[k].operationId) == Value(op.operationId)
    ensures !DistinctIds(before + [op] + after)
  {
    var k :| 0 <= k < |before| && Value(before[k].operationId) == Value(op.operationId);
    var all := before + [op] + after;
    assert all[k] == before[k] && all[|before|] == op;
  }

  lemma OpsGrow(server: Server, k: nat, n: nat)
    requires k <= n
    ensures OpsThrough(server, k) <= OpsThrough(server, n)
    decreases n - k
  {
    if k < n { OpsGrow(server, k + 1, n); }
  }

  lemma PrefixIsAcceptable(a: seq<HiveOp>, b: seq<HiveOp>, from: int, to: int)
    requires a <= b && forall op :: op in b ==> op.operationId.Valid()
    requires InRange(b, from, to) && DistinctIds(b)
    ensures (forall op :: op in a ==> op.operationId.Valid()) && InRange(a, from, to) && DistinctIds(a)
  {
    hide Value;
    forall op | op in a ensures op in b {
      var i :| 0 <= i < |a| && a[i] == op;
      assert b[i] == op;
    }
  }

  /** What an acceptable trail requires of its first `k` pages. */
  lemma PartOfReadable(server: Server, from: int, to: int, k: nat, n: nat)
    requires Parsed(server) && Readable(server, from, to, n) && k <= n
    ensures InRange(OpsThrough(server, k), from, to)
    ensures DistinctThrough(server, k)
    ensures k < n ==> PageAt(server, k).Some?
  {
    hide OpsThrough, DistinctIds, InRange, CursorAt;
    OpsGrow(server, k, n);
    OpsAreValid(server, k);
    OpsAreValid(server, n);
    PrefixIsAcceptable(OpsThrough(server, k), OpsThrough(server, n), from, to);
    if k < n - 1 { TrailIsUnbroken(server, k, n - 1); }
  }

  lemma EndsLater(server: Server, from: int, to: int, k: nat, n: nat)
    requires Parsed(server) && Readable(server, from, to, n) && CursorAt(server, k).Some?
    ensures k < n
  {
    if n <= k { TrailIsUnbroken(server, n, k); }
  }

  ghost predicate Unreadable(server: Server, from: int, to: int)
    requires Parsed(server)
  {
    forall n :: !Readable(server, from, to, n)
  }

  /** A page that cannot be had, or operations that are not acceptable. */
  lemma BrokenTrail(server: Server, from: int, to: int, k: nat)
    requires Parsed(server) && CursorAt(server, k).Some?
    requires PageAt(server, k).Some? ==>
      !InRange(OpsThrough(server, k + 1), from, to) || !DistinctThrough(server, k + 1)
    ensures Unreadable(server, from, to)
  {
    hide Readable, InRange, DistinctThrough, OpsThrough;
    forall n ensures !Readable(server, from, to, n) {
      if Readable(server, from, to, n) {
        EndsLater(server, from, to, k, n);
        PartOfReadable(server, from, to, k, n);
        PartOfReadable(server, from, to, k + 1, n);
      }
    }
  }

  lemma LoopingTrail(server: Server, from: int, to: int, i: nat, k: nat)
    requires Parsed(server) && i < k && CursorAt(server, k).Some? && CursorAt(server, i) == CursorAt(server, k)
    ensures Unreadable(server, from, to)
  {
    forall n ensures !Readable(server, from, to, n) {
      if Readable(server, from, to, n) {
        EndsLater(server, from, to, k, n);
        EndingTrailHasDistinctCursors(server, n, i, k);
      }
    }
  }

  lemma EndlessTrail(server: Server, from: int, to: int)
    requires Parsed(server) && CursorAt(server, HAFAH_MAX_PAGES).Some?
    ensures Unreadable(server, from, to)
  {
    forall n ensures !Readable(server, from, to, n) {
      if Readable(server, from, to, n) { EndsLater(server, from, to, HAFAH_MAX_PAGES, n); }
    }
  }

  lemma OfProtocolSum(a: seq<HiveOp>, b: seq<HiveOp>, protocolId: string)
    ensures OfProtocol(a + b, protocolId) == OfProtocol(a, protocolId) + OfProtocol(b, protocolId)
  {
    if b == [] { assert a + b == a; } else {
      OfProtocolSum(a, b[..|b| - 1], protocolId);
      assert (a + b)[..|a + b| - 1] == a + b[..|b| - 1];
    }
  }

  /** Everything on the first `pages` pages is acceptable and has been collected. */
  ghost predicate ReadSoFar(server: Server, from: int, to: int, protocolId: string, pages: nat,
                            allOps: seq<HiveOp>, seenIds: set<string>)
    requires Parsed(server)
  {
    && allOps == OfProtocol(OpsThrough(server, pages), protocolId)
    && seenIds == Keys(OpsThrough(server, pages))
    && InRange(OpsThrough(server, pages), from, to)
    && DistinctThrough(server, pages)
  }

  ghost predicate Seen(server: Server, pages: nat, cursors: set<string>) {
    forall c :: c in cursors <==> exists k :: 0 <= k < pages && CursorAt(server, k) == Some(c)
  }

  /** One page: fetched, validated against what was read before, and filtered. */
  method ReadPage(server: Server, from: int, to: int, protocolId: string, cursor: string, pages: nat,
                  allOps: seq<HiveOp>, seenIds: set<string>)
    returns (r: Result<Option<string>>, allOps': seq<HiveOp>, seenIds': set<string>)
    requires Parsed(server) && CursorAt(server, pages) == Some(cursor)
    requires ReadSoFar(server, from, to, protocolId, pages, allOps, seenIds)
    ensures r.Done? ==>
      && PageAt(server, pages).Some? && r.value == PageAt(server, pages).value.next
      && (!LastPage(PageAt(server, pages).value) ==> CursorAt(server, pages + 1) == r.value)
      && ReadSoFar(server, from, to, protocolId, pages + 1, allOps', seenIds')
    ensures r.Error? ==> Unreadable(server, from, to)
  {
    allOps', seenIds' := allOps, seenIds;
    OpsAreValid(server, pages);
    OpsAreValid(server, pages + 1);
    var page := FetchPage(server, cursor);
    if page.Error? {
      BrokenTrail(server, from, to, pages);
      return Error(page.message), allOps, seenIds;
    }
    ghost var earlier, ops := OpsThrough(server, pages), page.value.ops;
    assert OpsThrough(server, pages + 1) == earlier + ops;
    assert InRange(earlier + ops, from, to) <==> InRange(ops, from, to);
    var validated := ValidateHafAHPage(earlier, page.value.ops, from, to, seenIds);
    if validated.Error? {
      BrokenTrail(server, from, to, pages);
      return Error(validated.message), allOps, seenIds;
    }
    OfProtocolSum(earlier, ops, protocolId);
    return Done(page.value.next), allOps + OfProtocol(page.value.ops, protocolId), validated.value;
  }

  /** Succeeds exactly when the endpoint's trail from the initial cursor ends within the page limit with
      operations in range and numerically distinct ids, and then returns, in order, exactly the
      operations of the protocol on all its pages. */
  method FetchRangeFromEndpoint(server: Server, from: int, to: int, protocolId: string, pageSize: int)
    returns (r: Result<seq<HiveOp>>, ghost pagesRead: nat)
    requires Parsed(server)
    ensures r.Done? ==>
      && LegalRange(from, to, pageSize) && Readable(server, from, to, pagesRead)
      && r.value == OfProtocol(OpsThrough(server, pagesRead), protocolId)
      && Picks(OpsThrough(server, pagesRead), protocolId, r.value)
    ensures r.Error? ==> !LegalRange(from, to, pageSize) || Unreadable(server, from, to)
  {
    hide CursorAt, PageAt, OpsThrough, DistinctThrough, Unreadable, Parsed, InRange, OfProtocol, Keys, Picks;
    pagesRead := 0;
    if !LegalRange(from, to, pageSize) { return Error("Invalid HafAH block range"), 0; }
    var allOps: seq<HiveOp>, seenOperationIds: set<string> := [], {};
    var seenCursors: set<string> := {};
    var cursor := INITIAL_HAFAH_CURSOR;
    var pages := 0;
    NothingRead(server, from, to, protocolId);
    while pages < HAFAH_MAX_PAGES
      invariant 0 <= pages <= HAFAH_MAX_PAGES
      invariant CursorAt(server, pages) == Some(cursor)
      invariant Seen(server, pages, seenCursors)
      invariant ReadSoFar(server, from, to, protocolId, pages, allOps, seenOperationIds)
    {
      if cursor in seenCursors {
        CycleFound(server, from, to, pages, seenCursors, cursor);
        return Error("cursor cycle detected"), pages;
      }
      seenCursors := seenCursors + {cursor};
      var next;
      next, allOps, seenOperationIds := ReadPage(server, from, to, protocolId, cursor, pages, allOps, seenOperationIds);
      if next.Error? { return Error(next.message), pages; }
      pages := pages + 1;
      assert Seen(server, pages, seenCursors);
      if next.value.None? || next.value.value == FINAL_HAFAH_CURSOR {
        OfProtocolPicks(OpsThrough(server, pages), protocolId);
        return Done(allOps), pages;
      }
      var nextCursor := next.value.value;
      if nextCursor == cursor {
        CycleFound(server, from, to, pages, seenCursors, nextCursor);
        return Error("cursor did not advance"), pages;
      }
      if nextCursor in seenCursors {
        CycleFound(server, from, to, pages, seenCursors, nextCursor);
        return Error("cursor cycle detected"), pages;
      }
      cursor := nextCursor;
    }
    EndlessTrail(server, from, to);
    return Error("pagination overflow"), pages;
  }

  lemma NothingRead(server: Server, from: int, to: int, protocolId: string)
    requires Parsed(server)
    ensures CursorAt(server, 0) == Some(INITIAL_HAFAH_CURSOR)
    ensures ReadSoFar(server, from, to, protocolId, 0, [], {})
  {}

  lemma CycleFound(server: Server, from: int, to: int, pages: nat, seen: set<string>, cursor: string)
    requires Parsed(server) && CursorAt(server, pages) == Some(cursor)
    requires Seen(server, pages, seen) && cursor in seen
    ensures Unreadable(server, from, to)
  {
    var i :| 0 <= i < pages && CursorAt(server, i) == Some(cursor);
    LoopingTrail(server, from, to, i, pages);
  }

  // ---- A server that pages a fixed list ----

  function IndexOf(keys: seq<string>, key: string): (r: Option<nat>)
    ensures r.Some? ==> r.value < |keys| && keys[r.value] == key
    ensures r.None? ==> forall i :: 0 <= i < |keys| ==> keys[i] != key
  {
    if keys == [] then None
    else if keys[|keys| - 1] == key then Some(|keys| - 1)
    else IndexOf(keys[..|keys| - 1], key)
  }

  function KeysInOrder(ops: seq<HiveOp>): (keys: seq<string>)
    ensures |keys| == |ops| && forall i :: 0 <= i < |ops| ==> keys[i] == OperationIdKey(ops[i].operationId)
  {
    seq(|ops|, i requires 0 <= i < |ops| => OperationIdKey(ops[i].operationId))
  }

  function IndexOfKey(ops: seq<HiveOp>, key: string): Option<nat> { IndexOf(KeysInOrder(ops), key) }

  lemma IndexOfKeyFinds(ops: seq<HiveOp>, key: string)
    ensures var r := IndexOfKey(ops, key); r.Some? ==> r.value < |ops|
  {
    hide OperationIdKey, IndexOf, KeysInOrder;
  }

  /** At most `size` operations from the cursor on, and the id of the next one. */
  function ListPage(ops: seq<HiveOp>, size: nat, cursor: string): Result<Page> {
    var start := if cursor == INITIAL_HAFAH_CURSOR then Some(0) else IndexOfKey(ops, cursor);
    IndexOfKeyFinds(ops, cursor);
    if start.None? then Error("unknown operation-begin")
    else if start.value + size < |ops| then
      Done(Page(ops[start.value..start.value + size], Some(OperationIdKey(ops[start.value + size].operationId))))
    else Done(Page(ops[start.value..], None))
  }

  function ListServer(ops: seq<HiveOp>, size: nat): Server { cursor => ListPage(ops, size, cursor) }

  /** Pairwise different ids that can serve as cursors, all in range. */
  ghost predicate ProperList(ops: seq<HiveOp>, from: int, to: int) {
    && (forall op :: op in ops ==> op.operationId.Valid() && Value(op.operationId) >= 0)
    && InRange(ops, from, to) && DistinctIds(ops)
  }

  /** No operation that may begin a later page has id 0, which as a cursor means the end. */
  ghost predicate NoEndMarker(ops: seq<HiveOp>)
    requires forall op :: op in ops ==> op.operationId.Valid()
  {
    forall i :: 1 <= i < |ops| ==> Value(ops[i].operationId) != 0
  }

  /** The operation that begins page `k`, counted from 0, has id 0. */
  ghost predicate MarksEnd(ops: seq<HiveOp>, size: nat, k: nat)
    requires forall op :: op in ops ==> op.operationId.Valid()
  {
    k * size < |ops| && Value(ops[k * size].operationId) == 0
  }

  /** No page behind the first and up to page `k` begins with an end marker. */
  ghost predicate NoMarkerThrough(ops: seq<HiveOp>, size: nat, k: nat)
    requires forall op :: op in ops ==> op.operationId.Valid()
  {
    forall j: nat :: 1 <= j <= k ==> !MarksEnd(ops, size, j)
  }

  /** Read in pages of this size, no page the reader may come to begins with an end marker. */
  ghost predicate Pageable(ops: seq<HiveOp>, size: nat, from: int, to: int) {
    ProperList(ops, from, to) && NoMarkerThrough(ops, size, HAFAH_MAX_PAGES)
  }

  lemma PositiveKey(op: HiveOp)
    requires op.operationId.Valid() && Value(op.operationId) > 0
    ensures NumericText(OperationIdKey(op.operationId))
    ensures OperationIdKey(op.operationId) != INITIAL_HAFAH_CURSOR && OperationIdKey(op.operationId) != FINAL_HAFAH_CURSOR
  {
    hide Decimal, NumberOf;
    KeyIsCanonical(op.operationId);
    DecimalValue(Value(op.operationId));
  }

  lemma ZeroKey(op: HiveOp)
    requires op.operationId.Valid() && Value(op.operationId) == 0
    ensures OperationIdKey(op.operationId) == FINAL_HAFAH_CURSOR
  {
    KeyIsCanonical(op.operationId);
    assert Decimal(0) == "0";
  }

  lemma KeyIsCursor(op: HiveOp)
    requires op.operationId.Valid() && Value(op.operationId) >= 0
    ensures ValidCursor(OperationIdKey(op.operationId))
  {
    hide OperationIdKey, NumericText;
    if Value(op.operationId) == 0 { ZeroKey(op); } else { PositiveKey(op); }
  }

  lemma ListPageParsed(ops: seq<HiveOp>, size: nat, cursor: string)
    requires forall op :: op in ops ==> op.operationId.Valid() && Value(op.operationId) >= 0
    requires ListPage(ops, size, cursor).Done?
    ensures WellFormedPage(ListPage(ops, size, cursor).value)
  {
    hide OperationIdKey, NumericText, ValidCursor, IndexOfKey;
    forall i | 0 <= i < |ops| ensures ValidCursor(OperationIdKey(ops[i].operationId)) { KeyIsCursor(ops[i]); }
  }

  lemma ListServerParsed(ops: seq<HiveOp>, size: nat, from: int, to: int)
    requires ProperList(ops, from, to)
    ensures Parsed(ListServer(ops, size))
  {
    hide OperationIdKey, NumericText, ValidCursor, IndexOfKey, ListPage, WellFormedPage;
    forall c | ListServer(ops, size)(c).Done? ensures WellFormedPage(ListServer(ops, size)(c).value) {
      ListPageParsed(ops, size, c);
    }
  }

  lemma KeyFindsItsPlace(ops: seq<HiveOp>, i: nat, from: int, to: int)
    requires ProperList(ops, from, to) && i < |ops|
    ensures IndexOfKey(ops, OperationIdKey(ops[i].operationId)) == Some(i)
  {
    hide OperationIdKey, IndexOf, KeysInOrder;
    var j := IndexOfKey(ops, OperationIdKey(ops[i].operationId));
    if j.Some? { SameKeyIffSameNumber(ops[j.value].operationId, ops[i].operationId); }
  }

  /** The page at `start`, reached over the cursor that names it. */
  lemma PageOfList(ops: seq<HiveOp>, size: nat, from: int, to: int, start: nat)
    requires ProperList(ops, from, to) && size > 0
    requires start == 0 || (start < |ops| && Value(ops[start].operationId) > 0)
    ensures var cursor := if start == 0 then INITIAL_HAFAH_CURSOR else OperationIdKey(ops[start].operationId);
      FetchPage(ListServer(ops, size), cursor) ==
        if start + size < |ops| then
          Done(Page(ops[start..start + size], Some(OperationIdKey(ops[start + size].operationId))))
        else Done(Page(ops[start..], None))
  {
    hide OperationIdKey, NumericText, IndexOfKey, InRange, DistinctIds;
    if start > 0 {
      PositiveKey(ops[start]);
      KeyFindsItsPlace(ops, start, from, to);
    }
  }

  /** A later page that begins with no end marker begins with a positive id. */
  lemma BeginsPositive(ops: seq<HiveOp>, size: nat, from: int, to: int, k: nat)
    requires ProperList(ops, from, to) && k * size < |ops| && !MarksEnd(ops, size, k)
    ensures ops[k * size].operationId.Valid() && Value(ops[k * size].operationId) > 0
  {
    assert ops[k * size] in ops;
  }

  lemma {:induction false} TrailOfList(ops: seq<HiveOp>, size: nat, from: int, to: int, k: nat)
    requires ProperList(ops, from, to) && NoMarkerThrough(ops, size, k) && size > 0 && (k == 0 || k * size < |ops|)
    ensures CursorAt(ListServer(ops, size), k) ==
      Some(if k == 0 then INITIAL_HAFAH_CURSOR else OperationIdKey(ops[k * size].operationId))
    ensures OpsThrough(ListServer(ops, size), k) == ops[..k * size]
    decreases k, 1
  {
    hide ListServer, FetchPage, InRange, DistinctIds, MarksEnd, OperationIdKey;
    if k > 0 {
      FullPageOfList(ops, size, from, to, k - 1);
      BeginsPositive(ops, size, from, to, k);
      PositiveKey(ops[k * size]);
      assert ops[..(k - 1) * size] + ops[(k - 1) * size..k * size] == ops[..k * size];
    }
  }

  /** A page that is not the last one of the list. */
  lemma {:induction false} FullPageOfList(ops: seq<HiveOp>, size: nat, from: int, to: int, k: nat)
    requires ProperList(ops, from, to) && NoMarkerThrough(ops, size, k) && size > 0 && (k + 1) * size < |ops|
    ensures (k + 1) * size == k * size + size
    ensures OpsThrough(ListServer(ops, size), k) == ops[..k * size]
    ensures PageAt(ListServer(ops, size), k) ==
      Some(Page(ops[k * size..(k + 1) * size], Some(OperationIdKey(ops[(k + 1) * size].operationId))))
    decreases k + 1, 0
  {
    hide ListServer, InRange, DistinctIds, MarksEnd, OperationIdKey, OpsThrough, FetchPage;
    assert (k + 1) * size == k * size + size;
    if k > 0 {
      assert k * size > 0;
      BeginsPositive(ops, size, from, to, k);
    }
    TrailOfList(ops, size, from, to, k);
    PageOfList(ops, size, from, to, k * size);
  }

  lemma ReadableOnce(server: Server, from: int, to: int, n: nat, m: nat)
    requires Parsed(server) && Readable(server, from, to, n) && Readable(server, from, to, m)
    ensures n == m
  {
    hide InRange, DistinctThrough;
    EndsLater(server, from, to, n - 1, m);
    EndsLater(server, from, to, m - 1, n);
  }

  lemma ShortListIsRead(ops: seq<HiveOp>, size: nat, from: int, to: int)
    requires Pageable(ops, size, from, to) && size > 0 && |ops| <= HAFAH_MAX_PAGES * size
    requires Parsed(ListServer(ops, size))
    ensures exists n :: Readable(ListServer(ops, size), from, to, n)
    ensures forall n :: Readable(ListServer(ops, size), from, to, n) ==> OpsThrough(ListServer(ops, size), n) == ops
  {
    hide ListServer, Pageable, Readable, OpsThrough, Parsed;
    var server := ListServer(ops, size);
    var last := if ops == [] then 0 else (|ops| - 1) / size;
    if ops != [] { Rounded(|ops| - 1, size); }
    if last >= HAFAH_MAX_PAGES { AtMost(HAFAH_MAX_PAGES, last, size); }
    LastPageOfList(ops, size, from, to, last);
    forall n | Readable(server, from, to, n) ensures OpsThrough(server, n) == ops {
      ReadableOnce(server, from, to, n, last + 1);
    }
  }

  lemma LongListOverflows(ops: seq<HiveOp>, size: nat, from: int, to: int)
    requires Pageable(ops, size, from, to) && size > 0 && |ops| > HAFAH_MAX_PAGES * size
    requires Parsed(ListServer(ops, size))
    ensures Unreadable(ListServer(ops, size), from, to)
  {
    hide ListServer, ProperList, NoMarkerThrough, Parsed, Unreadable;
    TrailOfList(ops, size, from, to, HAFAH_MAX_PAGES);
    EndlessTrail(ListServer(ops, size), from, to);
  }

  /** Against an endpoint that pages a fixed list without an end marker inside, the range is readable
      exactly when the list fits into the page limit, and what is read is then the list filtered by protocol. */
  lemma PagedListIsFiltered(ops: seq<HiveOp>, size: nat, from: int, to: int, protocolId: string)
    requires Pageable(ops, size, from, to) && size > 0
    ensures Parsed(ListServer(ops, size))
    ensures (exists n :: Readable(ListServer(ops, size), from, to, n)) <==> |ops| <= HAFAH_MAX_PAGES * size
    ensures forall n, picked :: Readable(ListServer(ops, size), from, to, n) ==>
      (Picks(OpsThrough(ListServer(ops, size), n), protocolId, picked) <==> Picks(ops, protocolId, picked))
  {
    hide ListServer, Picks, ProperList, NoMarkerThrough, Readable, OpsThrough, Parsed;
    ListServerParsed(ops, size, from, to);
    if |ops| <= HAFAH_MAX_PAGES * size {
      ShortListIsRead(ops, size, from, to);
    } else {
      LongListOverflows(ops, size, from, to);
    }
  }

  /** With a given page size, what is read from a paged list is the whole list if and only if none of the
      operations that begin one of its first pages after the initial one has id 0: as a cursor that id reads
      as the end, and the rest is silently left out. The range can be read, and as a whole, if and only if
      moreover the list fits into the page limit. */
  lemma WholeListIffNoPageBeginsAtZero(ops: seq<HiveOp>, size: nat, from: int, to: int)
    requires ProperList(ops, from, to) && size > 0
    ensures ReadsWhole(ops, size, from, to) <==> NoMarkerThrough(ops, size, HAFAH_MAX_PAGES)
    ensures ReadInFull(ops, size, from, to) <==>
      |ops| <= HAFAH_MAX_PAGES * size && NoMarkerThrough(ops, size, HAFAH_MAX_PAGES)
  {
    hide ListServer, InRange, DistinctIds, MarksEnd, Readable, OpsThrough, Parsed;
    ListServerParsed(ops, size, from, to);
    if NoMarkerThrough(ops, size, HAFAH_MAX_PAGES) {
      if |ops| <= HAFAH_MAX_PAGES * size {
        ShortListIsRead(ops, size, from, to);
      } else {
        LongListOverflows(ops, size, from, to);
      }
    } else {
      var k: nat :| 1 <= k <= HAFAH_MAX_PAGES && MarksEnd(ops, size, k);
      EndMarkerCutsOff(ops, size, k, from, to);
      forall n | Readable(ListServer(ops, size), from, to, n) ensures OpsThrough(ListServer(ops, size), n) != ops {
        ReadableOnce(ListServer(ops, size), from, to, n, k);
      }
    }
  }

  /** For every page size at once: no operation behind the first may have id 0. */
  lemma WholeListIffNoEndMarker(ops: seq<HiveOp>, from: int, to: int)
    requires ProperList(ops, from, to)
    ensures NoEndMarker(ops) <==> forall size: nat :: size > 0 ==> ReadsWhole(ops, size, from, to)
  {
    hide ReadsWhole, InRange, DistinctIds;
    forall size: nat | size > 0
      ensures ReadsWhole(ops, size, from, to) <==> NoMarkerThrough(ops, size, HAFAH_MAX_PAGES)
    {
      WholeListIffNoPageBeginsAtZero(ops, size, from, to);
    }
    if NoEndMarker(ops) {
      forall size: nat | size > 0 ensures NoMarkerThrough(ops, size, HAFAH_MAX_PAGES) {
        forall k: nat | 1 <= k ensures !MarksEnd(ops, size, k) { assert k * size >= 1; }
      }
    } else {
      var i: nat :| 1 <= i < |ops| && Value(ops[i].operationId) == 0;
      assert MarksEnd(ops, i, 1);
      assert !ReadsWhole(ops, i, from, to);
    }
  }

  ghost predicate ReadsWhole(ops: seq<HiveOp>, size: nat, from: int, to: int) {
    Parsed(ListServer(ops, size)) &&
    forall n :: Readable(ListServer(ops, size), from, to, n) ==> OpsThrough(ListServer(ops, size), n) == ops
  }

  ghost predicate ReadInFull(ops: seq<HiveOp>, size: nat, from: int, to: int) {
    Parsed(ListServer(ops, size)) &&
    exists n :: Readable(ListServer(ops, size), from, to, n) && OpsThrough(ListServer(ops, size), n) == ops
  }

  /** Ids are distinct, so at most one page begins with an end marker. */
  lemma OnlyMarker(ops: seq<HiveOp>, size: nat, k: nat, from: int, to: int)
    requires ProperList(ops, from, to) && size > 0 && k >= 1 && MarksEnd(ops, size, k)
    ensures NoMarkerThrough(ops, size, k - 1)
  {
    hide InRange;
    forall j: nat | 1 <= j < k ensures !MarksEnd(ops, size, j) {
      assert j * size < k * size by { FewerPages(j, k, size); }
    }
  }

  lemma FewerPages(j: nat, k: nat, size: nat)
    requires j < k && size > 0
    ensures j * size < k * size
  {
    assert k * size == j * size + (k - j) * size;
  }

  /** The trail ends before the page that begins with the end marker. */
  lemma EndMarkerCutsOff(ops: seq<HiveOp>, size: nat, k: nat, from: int, to: int)
    requires ProperList(ops, from, to) && size > 0 && 1 <= k <= HAFAH_MAX_PAGES && MarksEnd(ops, size, k)
    requires Parsed(ListServer(ops, size))
    ensures OpsThrough(ListServer(ops, size), k) == ops[..k * size] != ops
    ensures Readable(ListServer(ops, size), from, to, k)
  {
    hide ListServer, OperationIdKey, InRange, DistinctIds, NoMarkerThrough, PageAt;
    OnlyMarker(ops, size, k, from, to);
    FullPageOfList(ops, size, from, to, k - 1);
    assert ops[k * size] in ops;
    ZeroKey(ops[k * size]);
    assert ops[..(k - 1) * size] + ops[(k - 1) * size..k * size] == ops[..k * size];
    PrefixOfProper(ops, k * size, from, to);
  }

  lemma PrefixOfProper(ops: seq<HiveOp>, i: nat, from: int, to: int)
    requires ProperList(ops, from, to) && i <= |ops|
    ensures (forall op :: op in ops[..i] ==> op.operationId.Valid())
    ensures InRange(ops[..i], from, to) && DistinctIds(ops[..i])
  {
    PrefixIsAcceptable(ops[..i], ops, from, to);
  }

  lemma Rounded(n: nat, size: nat)
    requires size > 0
    ensures n / size * size <= n < n / size * size + size
  {}

  lemma AtMost(a: nat, b: nat, size: nat)
    requires a <= b
    ensures a * size <= b * size
  {}

  lemma LastPageOfList(ops: seq<HiveOp>, size: nat, from: int, to: int, last: nat)
    requires Pageable(ops, size, from, to) && size > 0 && Parsed(ListServer(ops, size))
    requires (last == 0 || last * size < |ops|) && |ops| <= last * size + size && last < HAFAH_MAX_PAGES
    ensures OpsThrough(ListServer(ops, size), last + 1) == ops
    ensures Readable(ListServer(ops, size), from, to, last + 1)
  {
    hide ListServer, FetchPage, OperationIdKey, InRange, DistinctIds, MarksEnd, Parsed;
    var server := ListServer(ops, size);
    TrailOfList(ops, size, from, to, last);
    if last > 0 {
      assert last * size > 0;
      BeginsPositive(ops, size, from, to, last);
    }
    PageOfList(ops, size, from, to, last * size);
    assert PageAt(server, last) == Some(Page(ops[last * size..], None));
    assert OpsThrough(server, last + 1) == ops[..last * size] + ops[last * size..] == ops;
  }
}
