/** A reading of a range, said about the pages themselves.
    (packages/indexer/src/scanner/hive-client.ts) */
module HiveReading {
  import opened Prelude
  import opened HiveOperationIds
  import opened HiveClient

  /** The operations of the pages, one page after the other. */
  function Joined(pages: seq<Page>): seq<HiveOp> {
    if pages == [] then [] else Joined(pages[..|pages| - 1]) + pages[|pages| - 1].ops
  }

  /** Pages that lead from one to the next, from the cursor -1 to a page that names no cursor or the cursor 0. */
  ghost predicate Trail(server: Server, cursors: seq<string>, pages: seq<Page>) {
    && |cursors| == |pages| > 0 && cursors[0] == "-1"
    && (forall k :: 0 <= k < |pages| ==> server(cursors[k]) == Done(pages[k]))
    && (forall k :: 0 <= k < |pages| - 1 ==> pages[k].next == Some(cursors[k + 1]) && cursors[k + 1] != "0")
    && (pages[|pages| - 1].next.None? || pages[|pages| - 1].next == Some("0"))
  }

  /** In the range, and no number twice. */
  ghost predicate Acceptable(ops: seq<HiveOp>, from: int, to: int) {
    && (forall i :: 0 <= i < |ops| ==> from <= ops[i].block <= to && ops[i].operationId.Valid())
    && (forall i, j :: 0 <= i < j < |ops| ==> Value(ops[i].operationId) != Value(ops[j].operationId))
  }

  lemma TrailCursorIsValid(server: Server, cursors: seq<string>, pages: seq<Page>, k: nat)
    requires Parsed(server) && Trail(server, cursors, pages) && k < |pages|
    ensures ValidCursor(cursors[k]) && server(cursors[k]) == Done(pages[k])
  {
    hide NumericText;
    if k > 0 { assert WellFormedPage(server(cursors[k - 1]).value) && pages[k - 1].next == Some(cursors[k]); }
  }

  lemma TrailPage(server: Server, cursors: seq<string>, pages: seq<Page>, k: nat)
    requires Parsed(server) && Trail(server, cursors, pages) && k < |pages| && CursorAt(server, k) == Some(cursors[k])
    ensures PageAt(server, k) == Some(pages[k])
  {
    hide CursorAt, ValidCursor, Trail, Parsed;
    TrailCursorIsValid(server, cursors, pages, k);
  }

  lemma TrailNext(server: Server, cursors: seq<string>, pages: seq<Page>, k: nat)
    requires Trail(server, cursors, pages) && k + 1 < |pages| && PageAt(server, k) == Some(pages[k])
    ensures CursorAt(server, k + 1) == Some(cursors[k + 1])
  {
    hide PageAt;
  }

  lemma OnePageMore(server: Server, pages: seq<Page>, k: nat)
    requires k < |pages| && PageAt(server, k) == Some(pages[k]) && OpsThrough(server, k) == Joined(pages[..k])
    ensures OpsThrough(server, k + 1) == Joined(pages[..k + 1])
  {
    hide PageAt;
    assert pages[..k + 1][..k] == pages[..k];
  }

  lemma {:induction false} TrailStep(server: Server, cursors: seq<string>, pages: seq<Page>, k: nat)
    requires Parsed(server) && Trail(server, cursors, pages) && k < |pages|
    ensures CursorAt(server, k) == Some(cursors[k]) && PageAt(server, k) == Some(pages[k])
    ensures OpsThrough(server, k + 1) == Joined(pages[..k + 1])
  {
    hide PageAt, Parsed;
    if k > 0 {
      TrailStep(server, cursors, pages, k - 1);
      TrailNext(server, cursors, pages, k - 1);
    } else {
      assert pages[..0] == [];
    }
    TrailPage(server, cursors, pages, k);
    OnePageMore(server, pages, k);
  }

  /** The cursors and pages that the reader comes by. */
  ghost function CursorsOf(server: Server, n: nat): seq<string>
    requires forall k :: 0 <= k < n ==> CursorAt(server, k).Some?
  {
    seq(n, k requires 0 <= k < n => CursorAt(server, k).value)
  }

  ghost function PagesOf(server: Server, n: nat): seq<Page>
    requires forall k :: 0 <= k < n ==> PageAt(server, k).Some?
  {
    seq(n, k requires 0 <= k < n => PageAt(server, k).value)
  }

  lemma ReaderFollowsTrail(server: Server, n: nat)
    requires n >= 1 && PageAt(server, n - 1).Some? && LastPage(PageAt(server, n - 1).value)
    ensures forall k :: 0 <= k < n ==> CursorAt(server, k).Some? && PageAt(server, k).Some?
    ensures Trail(server, CursorsOf(server, n), PagesOf(server, n))
  {
    hide NumericText;
    forall k | 0 <= k < n
      ensures CursorAt(server, k).Some? && PageAt(server, k).Some?
      ensures server(CursorAt(server, k).value) == Done(PageAt(server, k).value)
      ensures k < n - 1 ==> PageAt(server, k).value.next == CursorAt(server, k + 1) && CursorAt(server, k + 1) != Some("0")
    {
      TrailIsUnbroken(server, k, n - 1);
      if k < n - 1 { TrailIsUnbroken(server, k + 1, n - 1); }
    }
  }

  lemma AcceptableIs(ops: seq<HiveOp>, from: int, to: int)
    requires forall op :: op in ops ==> op.operationId.Valid()
    ensures Acceptable(ops, from, to) <==> InRange(ops, from, to) && DistinctIds(ops)
  {
    assert forall i :: 0 <= i < |ops| ==> ops[i] in ops;
  }

  /** A range is read over `n` pages exactly when there is a trail of that many, at most 100, whose operations
      are all in the range and have different numbers; and what is read is what stands on these pages. */
  lemma ReadableIffTrail(server: Server, from: int, to: int, n: nat)
    requires Parsed(server)
    ensures Readable(server, from, to, n) <==>
      n <= 100 && exists cursors, pages :: Trail(server, cursors, pages) && |pages| == n && Acceptable(Joined(pages), from, to)
    ensures forall cursors, pages :: Trail(server, cursors, pages) && |pages| == n ==> OpsThrough(server, n) == Joined(pages)
  {
    hide InRange, DistinctIds, Acceptable, Trail, Parsed;
    OpsAreValid(server, n);
    AcceptableIs(OpsThrough(server, n), from, to);
    forall cursors, pages | Trail(server, cursors, pages) && |pages| == n
      ensures n >= 1 && OpsThrough(server, n) == Joined(pages)
      ensures PageAt(server, n - 1).Some? && LastPage(PageAt(server, n - 1).value)
    {
      TrailEnds(server, cursors, pages);
    }
    if Readable(server, from, to, n) {
      ReaderFollowsTrail(server, n);
      assert |PagesOf(server, n)| == n;
    }
  }

  lemma TrailEnds(server: Server, cursors: seq<string>, pages: seq<Page>)
    requires Parsed(server) && Trail(server, cursors, pages)
    ensures |pages| >= 1 && OpsThrough(server, |pages|) == Joined(pages)
    ensures PageAt(server, |pages| - 1).Some? && LastPage(PageAt(server, |pages| - 1).value)
  {
    TrailStep(server, cursors, pages, |pages| - 1);
    assert pages[..|pages|] == pages;
  }
}
