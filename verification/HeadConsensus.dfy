/** The chain head the indexer trusts: the lower median of the endpoints' answers.
    (packages/indexer/src/scanner/head-consensus.ts, packages/indexer/src/scanner/hive-client.ts) */
module HeadConsensus {
  import opened Prelude

  datatype Head = Head(headBlock: int, irreversibleBlock: int)

  datatype Sample = Sample(endpoint: string, head: Head)

  /** Irreversible block first, head block second. */
  function CompareHeads(a: Head, b: Head): int {
    var irreversibleDelta := a.irreversibleBlock - b.irreversibleBlock;
    if irreversibleDelta != 0 then irreversibleDelta else a.headBlock - b.headBlock
  }

  predicate AtMost(a: Head, b: Head) { CompareHeads(a, b) <= 0 }

  ghost predicate SortedByHead(s: seq<Sample>) {
    forall i, j :: 0 <= i < j < |s| ==> AtMost(s[i].head, s[j].head)
  }

  /** Insert behind everything that is not greater, as a stable sort does. */
  function Insert(s: seq<Sample>, x: Sample): (r: seq<Sample>)
    ensures multiset(r) == multiset(s) + multiset{x} && |r| == |s| + 1
    ensures SortedByHead(s) ==> SortedByHead(r)
    decreases |s|
  {
    if s == [] || AtMost(s[|s| - 1].head, x.head) then
      s + [x]
    else
      var front, last := s[..|s| - 1], s[|s| - 1];
      var inserted := Insert(front, x);
      assert s == front + [last];
      InsertBelow(front, x, last, inserted);
      inserted + [last]
  }

  lemma InsertBelow(front: seq<Sample>, x: Sample, last: Sample, inserted: seq<Sample>)
    requires multiset(inserted) == multiset(front) + multiset{x} && AtMost(x.head, last.head)
    requires SortedByHead(front + [last]) ==> SortedByHead(front)
    requires SortedByHead(front) ==> SortedByHead(inserted)
    ensures SortedByHead(front + [last]) ==> SortedByHead(inserted + [last])
  {
    if SortedByHead(front + [last]) {
      forall i | 0 <= i < |inserted| ensures AtMost(inserted[i].head, last.head) {
        assert inserted[i] in multiset(inserted);
        if inserted[i] in front {
          var k :| 0 <= k < |front| && front[k] == inserted[i];
          assert AtMost((front + [last])[k].head, (front + [last])[|front|].head);
        }
      }
    }
  }

  function Sort(s: seq<Sample>): (r: seq<Sample>)
    ensures multiset(r) == multiset(s) && |r| == |s| && SortedByHead(r)
  {
    if s == [] then []
    else
      assert s == s[..|s| - 1] + [s[|s| - 1]];
      Insert(Sort(s[..|s| - 1]), s[|s| - 1])
  }

  /** The lower median of the sorted copy. */
  function SelectConsensusSample(samples: seq<Sample>): Result<Sample> {
    if samples == [] then Error("Cannot select blockchain head from an empty sample set")
    else Done(Sort(samples)[(|samples| - 1) / 2])
  }

  function SelectConsensusHead(samples: seq<Sample>): Result<Head> {
    match SelectConsensusSample(samples)
    case Error(e) => Error(e)
    case Done(s) => Done(s.head)
  }

  /** A part that avoids `others` has to fit into the rest. */
  lemma FitsIntoRest(part: seq<Sample>, rest: multiset<Sample>, others: multiset<Sample>)
    requires multiset(part) <= rest + others && forall x :: x in part ==> x !in others
    ensures |part| <= |rest|
  {
    forall x ensures multiset(part)[x] <= rest[x] {
      if x in multiset(part) { assert x in part; }
    }
    assert rest == multiset(part) + (rest - multiset(part));
  }

  lemma SortedPart(samples: seq<Sample>, i: nat, j: nat)
    requires i <= j <= |samples|
    ensures multiset(Sort(samples)[i..j]) <= multiset(samples)
  {
    PartOf(Sort(samples), i, j);
  }

  lemma PartOf(s: seq<Sample>, i: nat, j: nat)
    requires i <= j <= |s|
    ensures multiset(s[i..j]) <= multiset(s)
  {
    assert s == s[..i] + s[i..j] + s[j..];
  }

  /** Up to `(n - 1) / 2` endpoints may answer anything: the selected head still lies between the heads of
      two honest endpoints, so it is neither ahead of nor behind all of them. */
  lemma LiarsCannotMoveTheMedian(samples: seq<Sample>, honest: seq<Sample>, lies: seq<Sample>)
    requires samples != [] && multiset(samples) == multiset(honest) + multiset(lies)
    requires |lies| <= (|samples| - 1) / 2
    ensures var selected := SelectConsensusHead(samples).value;
      && (exists low :: low in honest && AtMost(low.head, selected)
                        && low.head.irreversibleBlock <= selected.irreversibleBlock)
      && (exists high :: high in honest && AtMost(selected, high.head)
                         && selected.irreversibleBlock <= high.head.irreversibleBlock)
  {
    hide Sort, AtMost;
    var s := Sort(samples);
    var m := (|samples| - 1) / 2;
    assert forall h :: AtMost(h, h) by { EveryHeadAtMostItself(); }
    HonestAmong(samples, honest, lies, 0, m + 1);
    HonestAmong(samples, honest, lies, m, |samples|);
    var low: nat :| low < m + 1 && s[low] in honest;
    var high: nat :| m <= high < |s| && s[high] in honest;
    assert s[low] in honest && AtMost(s[low].head, s[m].head);
    assert s[high] in honest && AtMost(s[m].head, s[high].head);
    AtMostIrreversible(s[low].head, s[m].head);
    AtMostIrreversible(s[m].head, s[high].head);
  }

  lemma AtMostIrreversible(a: Head, b: Head)
    requires AtMost(a, b)
    ensures a.irreversibleBlock <= b.irreversibleBlock
  {}

  lemma EveryHeadAtMostItself()
    ensures forall h :: AtMost(h, h)
  {}

  /** More samples than there are lies: one of them is honest. */
  lemma HonestInPart(part: seq<Sample>, honest: seq<Sample>, lies: seq<Sample>)
    requires multiset(part) <= multiset(lies) + multiset(honest) && |part| > |lies|
    ensures exists k :: 0 <= k < |part| && part[k] in honest
  {
    if forall k :: 0 <= k < |part| ==> part[k] !in honest {
      FitsIntoRest(part, multiset(lies), multiset(honest));
    }
  }

  lemma HonestAmong(samples: seq<Sample>, honest: seq<Sample>, lies: seq<Sample>, i: nat, j: nat)
    requires multiset(samples) == multiset(honest) + multiset(lies)
    requires i <= j <= |samples| && j - i > |lies|
    ensures exists k: nat :: i <= k < j && Sort(samples)[k] in honest
  {
    hide Sort;
    var part := Sort(samples)[i..j];
    SortedPart(samples, i, j);
    HonestInPart(part, honest, lies);
    var k :| 0 <= k < |part| && part[k] in honest;
    assert Sort(samples)[i + k] in honest;
  }

  /** One liar more can: when they all answer below every honest endpoint, so does the selected head. */
  lemma MoreLiarsMoveTheMedian(samples: seq<Sample>, honest: seq<Sample>, lies: seq<Sample>)
    requires samples != [] && multiset(samples) == multiset(honest) + multiset(lies)
    requires |lies| > (|samples| - 1) / 2
    requires forall h, l :: h in honest && l in lies ==> !AtMost(h.head, l.head)
    ensures var selected := SelectConsensusHead(samples).value;
      forall h :: h in honest ==> !AtMost(h.head, selected) && selected.irreversibleBlock <= h.head.irreversibleBlock
  {
    hide Sort;
    var s := Sort(samples);
    var m := (|samples| - 1) / 2;
    assert |multiset(samples)| == |honest| + |lies|;
    forall h | h in honest ensures !AtMost(h.head, s[m].head) {
      if AtMost(h.head, s[m].head) {
        SortedPart(samples, m, |samples|);
        NoneAbove(lies, s[m..|samples|], h.head);
        FitsIntoRest(s[m..|samples|], multiset(honest), multiset(lies));
      }
    }
  }

  /** The head does not depend on the order in which the answers came in. */
  lemma HeadIgnoresSampleOrder(a: seq<Sample>, b: seq<Sample>)
    requires multiset(a) == multiset(b)
    ensures SelectConsensusHead(a) == SelectConsensusHead(b)
  {
    assert |multiset(a)| == |a| && |multiset(b)| == |b|;
    if a != [] {
      MedianNotBelow(a, b);
      MedianNotBelow(b, a);
    }
  }

  lemma MedianNotBelow(a: seq<Sample>, b: seq<Sample>)
    requires multiset(a) == multiset(b) && |a| == |b| && a != []
    ensures AtMost(SelectConsensusHead(b).value, SelectConsensusHead(a).value)
  {
    hide Sort, AtMost, SortedByHead;
    SortedNotBelow(Sort(a), Sort(b), (|a| - 1) / 2);
  }

  /** Two sorted lists of the same samples have the same head at each place. */
  lemma SortedNotBelow(s: seq<Sample>, t: seq<Sample>, m: nat)
    requires SortedByHead(s) && SortedByHead(t) && multiset(s) == multiset(t) && m < |s| == |t|
    ensures AtMost(t[m].head, s[m].head)
  {
    if !AtMost(t[m].head, s[m].head) {
      NoneAbove(s[0..m + 1], t[m..], t[m].head);
      PartOf(s, 0, m + 1);
      assert t == t[..m] + t[m..];
      FitsIntoRest(s[0..m + 1], multiset(t[..m]), multiset(t[m..]));
    }
  }

  lemma NoneAbove(low: seq<Sample>, high: seq<Sample>, k: Head)
    requires forall i :: 0 <= i < |low| ==> !AtMost(k, low[i].head)
    requires forall i :: 0 <= i < |high| ==> AtMost(k, high[i].head)
    ensures forall x :: x in low ==> x !in multiset(high)
  {}

  // ---- The median, by counting ----

  /** Behind: irreversible blocks decide, and between equal ones the head blocks. */
  predicate Behind(a: Head, b: Head) {
    a.irreversibleBlock < b.irreversibleBlock || (a.irreversibleBlock == b.irreversibleBlock && a.headBlock < b.headBlock)
  }

  function IsBehind(h: Head): Sample -> bool { (s: Sample) => Behind(s.head, h) }

  function IsNotAhead(h: Head): Sample -> bool { (s: Sample) => !Behind(h, s.head) }

  function HasLowerBlock(h: Head): Sample -> bool { (s: Sample) => s.head.irreversibleBlock < h.irreversibleBlock }

  function HasUpToBlock(h: Head): Sample -> bool { (s: Sample) => s.head.irreversibleBlock <= h.irreversibleBlock }

  function CountIf(s: seq<Sample>, p: Sample -> bool): nat {
    if s == [] then 0 else CountIf(s[..|s| - 1], p) + if p(s[|s| - 1]) then 1 else 0
  }

  lemma {:induction false} CountIfSum(a: seq<Sample>, b: seq<Sample>, p: Sample -> bool)
    ensures CountIf(a + b, p) == CountIf(a, p) + CountIf(b, p)
  {
    if b == [] { assert a + b == a; } else {
      assert (a + b)[..|a + b| - 1] == a + b[..|b| - 1];
      CountIfSum(a, b[..|b| - 1], p);
    }
  }

  lemma {:induction false} CountIfBounds(s: seq<Sample>, p: Sample -> bool)
    ensures CountIf(s, p) <= |s|
    ensures (forall i :: 0 <= i < |s| ==> !p(s[i])) ==> CountIf(s, p) == 0
    ensures (forall i :: 0 <= i < |s| ==> p(s[i])) ==> CountIf(s, p) == |s|
  {
    if s != [] { CountIfBounds(s[..|s| - 1], p); }
  }

  lemma CountIfLast(s: seq<Sample>, x: Sample, p: Sample -> bool)
    ensures CountIf(s + [x], p) == CountIf(s, p) + if p(x) then 1 else 0
  {
    assert (s + [x])[..|s|] == s;
  }

  lemma {:induction false} CountIfInsert(s: seq<Sample>, x: Sample, p: Sample -> bool)
    ensures CountIf(Insert(s, x), p) == CountIf(s, p) + if p(x) then 1 else 0
    decreases |s|
  {
    hide AtMost;
    if s == [] || AtMost(s[|s| - 1].head, x.head) {
      CountIfLast(s, x, p);
    } else {
      CountIfInsert(s[..|s| - 1], x, p);
      CountIfLast(Insert(s[..|s| - 1], x), s[|s| - 1], p);
    }
  }

  lemma {:induction false} CountIfSorted(s: seq<Sample>, p: Sample -> bool)
    ensures CountIf(Sort(s), p) == CountIf(s, p)
  {
    hide Insert;
    if s != [] {
      CountIfSorted(s[..|s| - 1], p);
      CountIfInsert(Sort(s[..|s| - 1]), s[|s| - 1], p);
    }
  }

  lemma FewBefore(s: seq<Sample>, m: nat, p: Sample -> bool)
    requires m < |s| && forall i :: m <= i < |s| ==> !p(s[i])
    ensures CountIf(s, p) <= m
  {
    hide CountIf;
    assert s[..m] + s[m..] == s;
    CountIfSum(s[..m], s[m..], p);
    CountIfBounds(s[..m], p);
    CountIfBounds(s[m..], p);
  }

  lemma ManyUpTo(s: seq<Sample>, m: nat, p: Sample -> bool)
    requires m < |s| && forall i :: 0 <= i <= m ==> p(s[i])
    ensures m < CountIf(s, p)
  {
    hide CountIf;
    assert s[..m + 1] + s[m + 1..] == s;
    CountIfSum(s[..m + 1], s[m + 1..], p);
    CountIfBounds(s[..m + 1], p);
  }

  lemma MedianOfSorted(s: seq<Sample>, m: nat)
    requires SortedByHead(s) && m < |s|
    ensures var h := s[m].head;
      && CountIf(s, IsBehind(h)) <= m < CountIf(s, IsNotAhead(h))
      && CountIf(s, HasLowerBlock(h)) <= m < CountIf(s, HasUpToBlock(h))
  {
    hide CountIf;
    var h := s[m].head;
    FewBefore(s, m, IsBehind(h));
    FewBefore(s, m, HasLowerBlock(h));
    ManyUpTo(s, m, IsNotAhead(h));
    ManyUpTo(s, m, HasUpToBlock(h));
  }

  /** The selected head is a sample's; at most (n - 1) / 2 samples are behind it, and more than that many
      are not ahead of it. The same holds for the irreversible blocks alone. */
  lemma SelectedIsLowerMedian(samples: seq<Sample>)
    requires samples != []
    ensures SelectConsensusHead(samples).Done?
    ensures var h, m := SelectConsensusHead(samples).value, (|samples| - 1) / 2;
      && (exists s :: s in samples && s.head == h)
      && CountIf(samples, IsBehind(h)) <= m < CountIf(samples, IsNotAhead(h))
      && CountIf(samples, HasLowerBlock(h)) <= m < CountIf(samples, HasUpToBlock(h))
  {
    hide Sort, CountIf, SortedByHead, IsBehind, IsNotAhead, HasLowerBlock, HasUpToBlock;
    var m := (|samples| - 1) / 2;
    var h := Sort(samples)[m].head;
    SortedSample(samples, m);
    MedianOfSorted(Sort(samples), m);
    CountIfSorted(samples, IsBehind(h));
    CountIfSorted(samples, IsNotAhead(h));
    CountIfSorted(samples, HasLowerBlock(h));
    CountIfSorted(samples, HasUpToBlock(h));
  }

  lemma SortedSample(samples: seq<Sample>, k: nat)
    requires k < |samples|
    ensures Sort(samples)[k] in samples
  {
    hide Sort;
    assert Sort(samples)[k] in multiset(Sort(samples));
  }
}
