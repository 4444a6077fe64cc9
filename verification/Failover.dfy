/** Failover between endpoints: a whole range is read from one endpoint or tried again on another.
    (packages/indexer/src/scanner/hive-client.ts) */
module HiveFailover {
  import opened Prelude
  import opened EndpointHealth
  import opened HiveClient

  /** What the environment decides about one attempt. */
  datatype Attempt = Attempt(
    servers: string -> Server,        // how each endpoint answers this time
    selectedAt: int,
    failedAt: int,
    category: Category,               // how a failure would be classified
    retryAfterMs: Option<nat>,
    latencyMs: int)

  function ToSet(s: seq<string>): set<string> { set x | x in s }

  lemma {:induction false} DistinctSize(s: seq<string>)
    requires Distinct(s)
    ensures |ToSet(s)| == |s|
  {
    if s != [] {
      var front, last := s[..|s| - 1], s[|s| - 1];
      assert Distinct(front) && last !in front;
      DistinctSize(front);
      assert s == front + [last];
      assert ToSet(s) == ToSet(front) + {last};
    }
  }

  lemma SubsetSize(a: set<string>, b: set<string>)
    requires a <= b
    ensures |a| <= |b|
    ensures |a| == |b| ==> a == b
    decreases |b|
  {
    if b - a == {} {
      assert a == b;
    } else {
      var x :| x in b - a;
      SubsetSize(a, b - {x});
    }
  }

  /** While fewer than all have been tried in this round, the selection is a new one. */
  lemma SelectionIsNew(eps: seq<EndpointState>, tried: set<string>, now: int, chosen: nat)
    requires Distinct(UrlsOf(eps)) && |tried| < |eps| && BestChoice(eps, tried, now, chosen)
    ensures chosen < |eps| && eps[chosen].endpoint !in tried
  {
    hide ConsideredAll;
    if eps[chosen].endpoint in tried {
      assert forall j :: 0 <= j < |eps| ==> eps[j].endpoint in tried;
      forall u | u in ToSet(UrlsOf(eps)) ensures u in tried {
        var j :| 0 <= j < |eps| && UrlsOf(eps)[j] == u;
      }
      SubsetSize(ToSet(UrlsOf(eps)), tried);
      DistinctSize(UrlsOf(eps));
    }
  }

  /** The endpoints tried since `round` began: no repeats, all from the list, and exactly those in `attempted`. */
  ghost predicate RoundSoFar(urls: seq<string>, tried: seq<string>, round: nat, attempted: set<string>) {
    && round <= |tried| && attempted == ToSet(tried[round..])
    && Distinct(tried[round..]) && attempted <= ToSet(urls)
  }

  /** Each endpoint exactly once. */
  ghost predicate FullRound(urls: seq<string>, tried: seq<string>) {
    |tried| == |urls| && Distinct(tried) && ToSet(tried) == ToSet(urls)
  }

  lemma OneMoreTried(urls: seq<string>, tried: seq<string>, round: nat, attempted: set<string>, url: string)
    requires RoundSoFar(urls, tried, round, attempted) && url !in attempted && url in urls
    ensures RoundSoFar(urls, tried + [url], round, attempted + {url})
    ensures |attempted + {url}| == |tried| + 1 - round
  {
    assert (tried + [url])[round..] == tried[round..] + [url];
    DistinctSize(tried[round..]);
  }

  lemma RoundIsFull(urls: seq<string>, tried: seq<string>, round: nat, attempted: set<string>)
    requires Distinct(urls) && RoundSoFar(urls, tried, round, attempted) && |attempted| >= |urls|
    ensures FullRound(urls, tried[round..])
    ensures RoundSoFar(urls, tried, |tried|, {})
  {
    DistinctSize(urls);
    DistinctSize(tried[round..]);
    SubsetSize(attempted, ToSet(urls));
  }

  /** Where a run of failing attempts stands: in its first round, or past a full first one. */
  ghost predicate Rounds(urls: seq<string>, tried: seq<string>, round: nat, attempted: set<string>) {
    && RoundSoFar(urls, tried, round, attempted)
    && (round == 0 || (round == |urls| <= |tried| && FullRound(urls, tried[..round])))
  }

  lemma NextRound(urls: seq<string>, tried: seq<string>, round: nat, attempted: set<string>)
    requires Distinct(urls) && Rounds(urls, tried, round, attempted) && |attempted| >= |urls|
    requires |tried| < 2 * |urls|
    ensures round == 0 && Rounds(urls, tried, |tried|, {}) && |tried| == |urls|
  {
    RoundIsFull(urls, tried, round, attempted);
    assert tried[0..] == tried && tried[..|tried|] == tried;
  }

  lemma AllRoundsDone(urls: seq<string>, tried: seq<string>, round: nat, attempted: set<string>)
    requires Distinct(urls) && urls != [] && Rounds(urls, tried, round, attempted) && |tried| == 2 * |urls|
    ensures FullRound(urls, tried[..|urls|]) && FullRound(urls, tried[|urls|..])
  {
    DistinctSize(tried[round..]);
    DistinctSize(urls);
    SubsetSize(attempted, ToSet(urls));
    RoundIsFull(urls, tried, round, attempted);
  }

  /** One attempt: select, read the whole range from there, record how it went. */
  method TryEndpoint(pool: HealthPool, attempted: set<string>, a: Attempt,
                     from: int, to: int, protocolId: string, pageSize: int)
    returns (endpoint: Option<string>, fetched: Result<seq<HiveOp>>)
    requires pool.Valid() && forall url :: Parsed(a.servers(url))
    modifies pool
    ensures pool.Valid() && pool.Urls() == old(pool.Urls())
    ensures endpoint.None? <==> old(pool.Urls()) == []
    ensures endpoint.Some? ==> IsNewChoice(old(pool.Urls()), attempted, endpoint.value)
    ensures endpoint.None? ==> fetched.Error?
    ensures endpoint.Some? && fetched.Done? ==>
      ReadInOneGo(a.servers(endpoint.value), from, to, protocolId, fetched.value)
    ensures endpoint.Some? ==> exists selected ::
      SelectedFrom(old(pool.endpoints), attempted, a.selectedAt, endpoint.value, selected)
      && pool.endpoints == Recorded(selected, endpoint.value,
                                    if fetched.Done? then Succeeded(a.latencyMs) else Failed(a.category, a.failedAt, a.retryAfterMs))
  {
    hide BestChoice, ReadInOneGo, Life, Unreadable, Readable, IsNewChoice, ConsideredAll, After, FindEndpoint;
    ghost var eps, urls := pool.endpoints, pool.Urls();
    var selected, chosen := pool.SelectEndpoint(attempted, a.selectedAt);
    if selected.Error? { return None, Error(selected.message); }
    var url := selected.value;
    ChosenIsNew(eps, attempted, a.selectedAt, chosen);
    endpoint := Some(url);
    ghost var picked := pool.endpoints;
    assert SelectedFrom(eps, attempted, a.selectedAt, url, picked) by {
      assert Chose(eps, attempted, a.selectedAt, chosen, url, picked);
    }
    ghost var pages;
    fetched, pages := FetchRangeFromEndpoint(a.servers(url), from, to, protocolId, pageSize);
    if fetched.Done? {
      WasRead(a.servers(url), from, to, protocolId, fetched.value, pages);
      pool.RecordSuccess(url, a.latencyMs);
    } else {
      pool.RecordFailure(url, a.category, a.failedAt, a.retryAfterMs);
    }
  }

  /** A successful result is one endpoint's whole reading of the range from the initial cursor. When every
      attempt fails, every one of the distinct endpoints has been tried exactly once in each of two rounds. */
  method FetchRangeWithFailover(pool: HealthPool, attempts: nat -> Attempt,
                                from: int, to: int, protocolId: string, pageSize: int)
    returns (r: Result<seq<HiveOp>>, ghost tried: seq<string>)
    requires pool.Valid() && forall k, url :: Parsed(attempts(k).servers(url))
    modifies pool
    ensures pool.Valid() && pool.Urls() == old(pool.Urls())
    ensures r.Done? ==>
      && 0 < |tried| <= 2 * |pool.Urls()|
      && ReadInOneGo(attempts(|tried| - 1).servers(tried[|tried| - 1]), from, to, protocolId, r.value)
    ensures r.Error? && Distinct(pool.Urls()) && pool.Urls() != [] ==>
      && |tried| == 2 * |pool.Urls()|
      && FullRound(pool.Urls(), tried[..|pool.Urls()|])
      && FullRound(pool.Urls(), tried[|pool.Urls()|..])
  {
    hide Parsed, ReadInOneGo, Rounds, FullRound, UrlsOf, IsNewChoice;
    tried := [];
    var n := |pool.endpoints|;
    assert n == |pool.Urls()| by { UrlCount(pool.endpoints); }
    var maxAttempts := Max(2 * n, 1);
    var attempted: set<string> := {};
    ghost var urls := pool.Urls();
    ghost var round: nat := 0;
    NothingTried(urls);
    for attempt := 0 to maxAttempts
      invariant pool.Valid() && pool.Urls() == urls
      invariant attempt < maxAttempts && |tried| == attempt && (attempt > 0 ==> n > 0)
      invariant Distinct(urls) ==> Rounds(urls, tried, round, attempted)
    {
      if |attempted| >= n {
        if Distinct(urls) && n > 0 {
          NextRound(urls, tried, round, attempted);
          round := |tried|;
        }
        if n == 0 { NothingTried(urls); }
        attempted := {};
      }
      var endpoint, fetched := TryEndpoint(pool, attempted, attempts(attempt), from, to, protocolId, pageSize);
      if endpoint.None? { return Error(fetched.message), tried; }
      if Distinct(urls) { TriedNext(urls, tried, round, attempted, endpoint.value); }
      attempted := attempted + {endpoint.value};
      tried := tried + [endpoint.value];
      if fetched.Done? { return fetched, tried; }
      if attempt == maxAttempts - 1 {
        if Distinct(urls) { AllRoundsDone(urls, tried, round, attempted); }
        return fetched, tried;
      }
    }
    assert false;
  }

  /** From the list, and new as long as not all of it has been tried. */
  ghost predicate IsNewChoice(urls: seq<string>, attempted: set<string>, url: string) {
    url in urls && (Distinct(urls) && |attempted| < |urls| ==> url !in attempted)
  }

  lemma UrlCount(eps: seq<EndpointState>)
    ensures |UrlsOf(eps)| == |eps|
  {}

  lemma ChosenIsNew(eps: seq<EndpointState>, attempted: set<string>, now: int, chosen: nat)
    requires BestChoice(eps, attempted, now, chosen)
    ensures chosen < |eps| && IsNewChoice(UrlsOf(eps), attempted, eps[chosen].endpoint)
  {
    hide BestChoice;
    BestChoiceExists(eps, attempted, now, chosen);
    assert UrlsOf(eps)[chosen] == eps[chosen].endpoint;
    if Distinct(UrlsOf(eps)) && |attempted| < |eps| { SelectionIsNew(eps, attempted, now, chosen); }
  }

  ghost predicate ReadInOneGo(server: Server, from: int, to: int, protocolId: string, ops: seq<HiveOp>)
    requires Parsed(server)
  {
    exists n :: Readable(server, from, to, n) && Picks(OpsThrough(server, n), protocolId, ops)
  }

  lemma WasRead(server: Server, from: int, to: int, protocolId: string, ops: seq<HiveOp>, n: nat)
    requires Parsed(server) && Readable(server, from, to, n) && Picks(OpsThrough(server, n), protocolId, ops)
    ensures ReadInOneGo(server, from, to, protocolId, ops)
  {}

  lemma NothingTried(urls: seq<string>)
    ensures Rounds(urls, [], 0, {})
  {}

  lemma TriedNext(urls: seq<string>, tried: seq<string>, round: nat, attempted: set<string>, url: string)
    requires Distinct(urls) && Rounds(urls, tried, round, attempted)
    requires |attempted| < |urls| && IsNewChoice(urls, attempted, url)
    ensures Rounds(urls, tried + [url], round, attempted + {url})
  {
    OneMoreTried(urls, tried, round, attempted, url);
    if round > 0 { assert (tried + [url])[..round] == tried[..round]; }
  }
}
