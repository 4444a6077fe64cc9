/** Endpoint health: circuit breaker, rate limits and selection.
    (packages/indexer/src/scanner/endpoint-health.ts) */
module EndpointHealth {
  import opened Prelude

  const OPEN_AFTER_FAILURES := 8
  const COOLDOWN_BASE_MS := 10_000
  const COOLDOWN_MAX_MS := 120_000
  const COOLDOWN_MULTIPLIER := 2
  const RATE_LIMIT_DEFAULT_MS := 30_000
  const LATENCY_WINDOW := 20

  datatype Circuit = Closed | Open | HalfOpen

  datatype Category = Transient | RateLimited | ClientError | Unknown

  datatype EndpointState = EndpointState(
    endpoint: string,
    state: Circuit,
    consecutiveFailures: nat,
    cooldownMs: nat,
    openUntil: int,
    rateLimitedUntil: int,
    latencies: seq<int>)

  function NewEndpoint(url: string): EndpointState {
    EndpointState(url, Closed, 0, COOLDOWN_BASE_MS, 0, 0, [])
  }

  // ---- The life of one endpoint ----

  datatype Incident =
    | Succeeded(latencyMs: int)
    | Failed(category: Category, now: int, retryAfterMs: Option<nat>)
    | Considered(now: int)     // in the selection pool while an endpoint is picked
    | Picked

  function After(ep: EndpointState, e: Incident): EndpointState {
    match e
    case Succeeded(latencyMs) =>
      var healed := if ep.state.HalfOpen? then ep.(state := Closed, cooldownMs := COOLDOWN_BASE_MS) else ep;
      healed.(consecutiveFailures := 0, latencies := Windowed(ep.latencies + [latencyMs]))
    case Failed(RateLimited, now, retryAfterMs) =>
      ep.(rateLimitedUntil := now + if retryAfterMs.Some? then retryAfterMs.value else RATE_LIMIT_DEFAULT_MS)
    case Failed(_, now, _) =>
      var failures := ep.consecutiveFailures + 1;
      if ep.state.HalfOpen? then
        var cooldown := Min(ep.cooldownMs * COOLDOWN_MULTIPLIER, COOLDOWN_MAX_MS);
        ep.(consecutiveFailures := failures, state := Open, cooldownMs := cooldown, openUntil := now + cooldown)
      else if ep.state.Closed? && failures >= OPEN_AFTER_FAILURES then
        ep.(consecutiveFailures := failures, state := Open, openUntil := now + ep.cooldownMs)
      else ep.(consecutiveFailures := failures)
    case Considered(now) => if ep.state.Open? && now >= ep.openUntil then ep.(state := HalfOpen) else ep
    case Picked => if ep.state.Open? then ep.(state := HalfOpen) else ep
  }

  function Windowed(latencies: seq<int>): seq<int> {
    if |latencies| > LATENCY_WINDOW then latencies[1..] else latencies
  }

  function Life(url: string, incidents: seq<Incident>): EndpointState {
    if incidents == [] then NewEndpoint(url)
    else After(Life(url, incidents[..|incidents| - 1]), incidents[|incidents| - 1])
  }

  lemma LifeGoesOn(url: string, incidents: seq<Incident>, e: Incident)
    ensures Life(url, incidents + [e]) == After(Life(url, incidents), e)
  {
    assert (incidents + [e])[..|incidents|] == incidents;
  }

  function Pow2(k: nat): nat { if k == 0 then 1 else 2 * Pow2(k - 1) }

  /** Probes that failed since the last one that succeeded. */
  function FailedProbes(url: string, incidents: seq<Incident>): nat {
    if incidents == [] then 0
    else
      var front, last := incidents[..|incidents| - 1], incidents[|incidents| - 1];
      if !Life(url, front).state.HalfOpen? then FailedProbes(url, front)
      else if last.Succeeded? then 0
      else if last.Failed? && !last.category.RateLimited? then FailedProbes(url, front) + 1
      else FailedProbes(url, front)
  }

  /** Failures since the last success, rate limiting aside. */
  function FailuresInARow(incidents: seq<Incident>): nat {
    if incidents == [] then 0
    else
      var last := incidents[|incidents| - 1];
      if last.Succeeded? then 0
      else FailuresInARow(incidents[..|incidents| - 1]) + if last.Failed? && !last.category.RateLimited? then 1 else 0
  }

  /** A failure that counts: rate limiting does not. */
  predicate Fails(e: Incident) { e.Failed? && !e.category.RateLimited? }

  /** Whatever happens to an endpoint: a closed circuit has seen fewer than eight failures in a row and
      carries the base cooldown; the cooldown has doubled with every failed probe since the last one that
      succeeded, up to the cap; an open circuit is one that failed eight times in a row or failed a probe. */
  lemma {:induction false} CircuitInvariant(url: string, incidents: seq<Incident>)
    ensures var ep := Life(url, incidents);
      && ep.endpoint == url
      && ep.consecutiveFailures == FailuresInARow(incidents)
      && ep.cooldownMs == Min(COOLDOWN_BASE_MS * Pow2(FailedProbes(url, incidents)), COOLDOWN_MAX_MS)
      && (ep.state.Closed? ==>
            && ep.consecutiveFailures < OPEN_AFTER_FAILURES
            && FailedProbes(url, incidents) == 0 && ep.cooldownMs == COOLDOWN_BASE_MS)
      && |ep.latencies| <= LATENCY_WINDOW
  {
    hide Pow2, After;
    NothingDoubled();
    if incidents != [] {
      var front := incidents[..|incidents| - 1];
      CircuitInvariant(url, front);
      CooldownDoubles(FailedProbes(url, front));
      AfterIs(Life(url, front), incidents[|incidents| - 1]);
    }
  }

  /** One incident, field by field. */
  lemma AfterIs(ep: EndpointState, e: Incident)
    ensures var ep' := After(ep, e);
      && ep'.endpoint == ep.endpoint
      && ep'.consecutiveFailures == (if e.Succeeded? then 0 else ep.consecutiveFailures + if Fails(e) then 1 else 0)
      && ep'.cooldownMs == (if ep.state.HalfOpen? && e.Succeeded? then COOLDOWN_BASE_MS
                            else if ep.state.HalfOpen? && Fails(e) then Min(ep.cooldownMs * COOLDOWN_MULTIPLIER, COOLDOWN_MAX_MS)
                            else ep.cooldownMs)
      && (ep'.state.Closed? <==>
            || (ep.state.HalfOpen? && e.Succeeded?)
            || (ep.state.Closed? && !(Fails(e) && ep.consecutiveFailures + 1 >= OPEN_AFTER_FAILURES)))
      && (|ep.latencies| <= LATENCY_WINDOW ==> |ep'.latencies| <= LATENCY_WINDOW)
  {}

  lemma NothingDoubled()
    ensures Pow2(0) == 1
  {}

  lemma CooldownDoubles(k: nat)
    ensures Min(Min(COOLDOWN_BASE_MS * Pow2(k), COOLDOWN_MAX_MS) * COOLDOWN_MULTIPLIER, COOLDOWN_MAX_MS)
         == Min(COOLDOWN_BASE_MS * Pow2(k + 1), COOLDOWN_MAX_MS)
  {}

  /** Being throttled never changes circuit, failure count or cooldown. */
  lemma RateLimitingNeverOpens(ep: EndpointState, now: int, retryAfterMs: Option<nat>)
    ensures var ep' := After(ep, Failed(RateLimited, now, retryAfterMs));
      && ep' == ep.(rateLimitedUntil := ep'.rateLimitedUntil)
      && ep'.rateLimitedUntil >= now
  {}

  /** A circuit only opens on the eighth failure in a row or on a failed probe, and then stays open for
      exactly its cooldown unless it is picked before. */
  lemma OpensOnlyWhenDue(url: string, incidents: seq<Incident>, e: Incident)
    requires !Life(url, incidents).state.Open? && Life(url, incidents + [e]).state.Open?
    ensures e.Failed? && !e.category.RateLimited?
    ensures Life(url, incidents).state.Closed? ==> FailuresInARow(incidents + [e]) == OPEN_AFTER_FAILURES
    ensures var ep := Life(url, incidents + [e]);
      ep.openUntil == e.now + ep.cooldownMs && forall now :: now < ep.openUntil ==> After(ep, Considered(now)) == ep
  {
    assert (incidents + [e])[..|incidents|] == incidents;
    CircuitInvariant(url, incidents);
    CircuitInvariant(url, incidents + [e]);
  }

  predicate Throttles(e: Incident) { e.Failed? && e.category.RateLimited? }

  /** What a 429 asks for: its own delay, or 30 seconds. */
  function ThrottleEnd(e: Incident): int
    requires Throttles(e)
  {
    e.now + if e.retryAfterMs.Some? then e.retryAfterMs.value else 30_000
  }

  /** The endpoint is throttled until the end of its last 429, whatever happened since. */
  lemma {:induction false} ThrottledByTheLast(url: string, incidents: seq<Incident>)
    ensures var until := Life(url, incidents).rateLimitedUntil;
      || (until == 0 && forall k :: 0 <= k < |incidents| ==> !Throttles(incidents[k]))
      || exists k :: LastThrottle(incidents, k) && until == ThrottleEnd(incidents[k])
  {
    hide ThrottleEnd;
    if incidents != [] {
      var n := |incidents| - 1;
      var front := incidents[..n];
      ThrottledByTheLast(url, front);
      ThrottleMoves(Life(url, front), incidents[n]);
      if Throttles(incidents[n]) {
        assert LastThrottle(incidents, n);
      } else if exists k :: LastThrottle(front, k) {
        var k :| LastThrottle(front, k) && Life(url, front).rateLimitedUntil == ThrottleEnd(front[k]);
        assert LastThrottle(incidents, k) && front[k] == incidents[k];
      }
    }
  }

  lemma ThrottleMoves(ep: EndpointState, e: Incident)
    ensures After(ep, e).rateLimitedUntil == if Throttles(e) then ThrottleEnd(e) else ep.rateLimitedUntil
  {}

  predicate LastThrottle(incidents: seq<Incident>, k: int) {
    0 <= k < |incidents| && Throttles(incidents[k]) && forall j :: k < j < |incidents| ==> !Throttles(incidents[j])
  }

  /** When a circuit is closed, open or half-open after one more incident, and until when an open one is. */
  lemma CircuitMoves(url: string, incidents: seq<Incident>, e: Incident)
    ensures var ep, ep', failures := Life(url, incidents), Life(url, incidents + [e]), FailuresInARow(incidents + [e]);
      var opens := Fails(e) && (ep.state.HalfOpen? || (ep.state.Closed? && failures == 8));
      && (ep'.state.Open? <==> opens || (ep.state.Open? && e != Picked && !(e.Considered? && ep.openUntil <= e.now)))
      && (ep'.state.Closed? <==> (ep.state.Closed? && !opens) || (ep.state.HalfOpen? && e.Succeeded?))
      && ep'.openUntil == (if opens then e.now + ep'.cooldownMs else ep.openUntil)
  {
    assert (incidents + [e])[..|incidents|] == incidents;
    CircuitInvariant(url, incidents);
    CircuitInvariant(url, incidents + [e]);
  }

  /** The latencies of all successes. */
  function LatenciesOf(incidents: seq<Incident>): seq<int> {
    if incidents == [] then []
    else
      var last := incidents[|incidents| - 1];
      LatenciesOf(incidents[..|incidents| - 1]) + if last.Succeeded? then [last.latencyMs] else []
  }

  /** The last twenty latencies are kept. */
  lemma {:induction false} KeepsLastLatencies(url: string, incidents: seq<Incident>)
    ensures var all := LatenciesOf(incidents);
      Life(url, incidents).latencies == if |all| <= 20 then all else all[|all| - 20..]
  {
    if incidents != [] {
      KeepsLastLatencies(url, incidents[..|incidents| - 1]);
    }
  }

  // ---- Selection ----

  /** The endpoints that are not excluded, or all when every one is. */
  predicate InPool(eps: seq<EndpointState>, excluded: set<string>, i: int) {
    && 0 <= i < |eps|
    && (eps[i].endpoint !in excluded || forall j :: 0 <= j < |eps| ==> eps[j].endpoint in excluded)
  }

  predicate Throttled(eps: seq<EndpointState>, now: int, i: int)
    requires 0 <= i < |eps|
  {
    eps[i].rateLimitedUntil > now
  }

  /** Of those the ones not rate limited, or all when every one is. */
  ghost predicate Candidate(eps: seq<EndpointState>, excluded: set<string>, now: int, i: int) {
    && InPool(eps, excluded, i)
    && (Throttled(eps, now, i) ==> forall j :: InPool(eps, excluded, j) ==> Throttled(eps, now, j))
  }

  function ConsideredAll(eps: seq<EndpointState>, excluded: set<string>, now: int): seq<EndpointState> {
    seq(|eps|, i requires 0 <= i < |eps| => if InPool(eps, excluded, i) then After(eps[i], Considered(now)) else eps[i])
  }

  /** Closed first, then the first half-open one, then the open one that recovers soonest. */
  ghost predicate BestChoice(eps: seq<EndpointState>, excluded: set<string>, now: int, chosen: nat) {
    var mid := ConsideredAll(eps, excluded, now);
    && Candidate(eps, excluded, now, chosen)
    && match mid[chosen].state
       case Closed => true
       case HalfOpen =>
         forall i: nat :: Candidate(eps, excluded, now, i) ==>
           !mid[i].state.Closed? && (mid[i].state.HalfOpen? ==> chosen <= i)
       case Open =>
         forall i: nat :: Candidate(eps, excluded, now, i) ==>
           && mid[i].state.Open?
           && mid[chosen].openUntil <= mid[i].openUntil
           && (mid[i].openUntil == mid[chosen].openUntil ==> chosen <= i)
  }

  function Indices(n: nat): (r: seq<nat>)
    ensures |r| == n && forall i :: 0 <= i < n ==> r[i] == i
  {
    if n == 0 then [] else Indices(n - 1) + [n - 1]
  }

  /** The closed candidates, in the order of the endpoint list. */
  ghost predicate ClosedCandidates(eps: seq<EndpointState>, excluded: set<string>, now: int, closed: seq<nat>) {
    && Ascending(closed)
    && forall i: nat :: i in closed <==>
         Candidate(eps, excluded, now, i) && ConsideredAll(eps, excluded, now)[i].state.Closed?
  }

  /** The choice is the closed candidate whose turn it is. */
  ghost predicate InTurn(eps: seq<EndpointState>, excluded: set<string>, now: int, turn: nat, chosen: nat) {
    exists closed: seq<nat> :: ClosedCandidates(eps, excluded, now, closed) && closed != [] && chosen == closed[turn % |closed|]
  }

  lemma FrontOf(idx: seq<nat>, front: seq<nat>, last: nat)
    requires idx == front + [last]
    ensures last in idx && (front == [] ==> idx == [last])
    ensures forall i :: i in idx <==> i in front || i == last
    ensures Ascending(idx) ==> Ascending(front) && forall i :: i in front ==> i < last
  {
    assert idx[|front|] == last;
    if Ascending(idx) {
      forall k, l | 0 <= k < l < |front| ensures front[k] < front[l] { assert idx[k] < idx[l]; }
      forall k | 0 <= k < |front| ensures front[k] < last { assert idx[k] < idx[|front|]; }
    }
  }

  lemma AppendAscends(idx: seq<nat>, last: nat)
    requires Ascending(idx) && forall i :: i in idx ==> i < last
    ensures Ascending(idx + [last])
  {
    assert forall k :: 0 <= k < |idx| ==> idx[k] in idx;
  }

  /** The positions in `idx` that satisfy `p`, in order. */
  function Where(idx: seq<nat>, p: nat -> bool): (r: seq<nat>)
    ensures forall i :: i in r <==> i in idx && p(i)
    ensures Ascending(idx) ==> Ascending(r)
  {
    hide Ascending;
    if idx == [] then []
    else
      var front, last := idx[..|idx| - 1], idx[|idx| - 1];
      FrontOf(idx, front, last);
      var rest := Where(front, p);
      assert Ascending(idx) ==> Ascending(rest + [last]) by {
        if Ascending(idx) { AppendAscends(rest, last); }
      }
      if p(last) then rest + [last] else rest
  }

  ghost predicate Ascending(idx: seq<nat>) {
    forall i, j :: 0 <= i < j < |idx| ==> idx[i] < idx[j]
  }

  lemma FirstIsLeast(idx: seq<nat>)
    requires idx != [] && Ascending(idx)
    ensures idx[0] in idx && forall i :: i in idx ==> idx[0] <= i
  {}

  function FindEndpoint(eps: seq<EndpointState>, url: string): (r: Option<nat>)
    ensures r.Some? ==> r.value < |eps| && eps[r.value].endpoint == url
    ensures r.Some? ==> forall i :: 0 <= i < r.value ==> eps[i].endpoint != url
    ensures r.None? ==> forall i :: 0 <= i < |eps| ==> eps[i].endpoint != url
  {
    if eps == [] then None
    else
      var front := FindEndpoint(eps[..|eps| - 1], url);
      if front.Some? then front
      else if eps[|eps| - 1].endpoint == url then Some(|eps| - 1)
      else None
  }

  ghost function UrlsOf(eps: seq<EndpointState>): seq<string> {
    seq(|eps|, i requires 0 <= i < |eps| => eps[i].endpoint)
  }

  lemma UpdatingKeepsUrls(eps: seq<EndpointState>, i: nat, ep: EndpointState)
    requires i < |eps| && ep.endpoint == eps[i].endpoint
    ensures UrlsOf(eps[i := ep]) == UrlsOf(eps)
  {}

  lemma ConsideringKeepsUrls(eps: seq<EndpointState>, excluded: set<string>, now: int)
    ensures UrlsOf(ConsideredAll(eps, excluded, now)) == UrlsOf(eps)
  {
    hide InPool;
  }

  /** An incident of the first endpoint of that name, if there is one. */
  function Recorded(eps: seq<EndpointState>, url: string, e: Incident): seq<EndpointState> {
    match FindEndpoint(eps, url)
    case None => eps
    case Some(i) => eps[i := After(eps[i], e)]
  }

  /** The best choice was made, and is all that was changed beyond the considering. */
  ghost predicate SelectedFrom(eps: seq<EndpointState>, excluded: set<string>, now: int, url: string, eps': seq<EndpointState>) {
    exists chosen: nat :: BestChoice(eps, excluded, now, chosen) && Chose(eps, excluded, now, chosen, url, eps')
  }

  ghost predicate Chose(eps: seq<EndpointState>, excluded: set<string>, now: int, chosen: nat, url: string,
                        eps': seq<EndpointState>)
  {
    var mid := ConsideredAll(eps, excluded, now);
    chosen < |eps| && eps[chosen].endpoint == url && eps' == mid[chosen := After(mid[chosen], Picked)]
  }

  /** One request for an endpoint. */
  datatype Ask = Ask(excluded: set<string>, now: int)

  class HealthPool {
    var endpoints: seq<EndpointState>
    var roundRobinIndex: nat
    ghost var history: seq<seq<Incident>>

    /** Every endpoint is where its incidents have brought it. */
    ghost predicate Valid()
      reads this
    {
      && |history| == |endpoints|
      && forall i :: 0 <= i < |endpoints| ==> endpoints[i] == Life(endpoints[i].endpoint, history[i])
    }

    ghost function Urls(): seq<string>
      reads this
    {
      UrlsOf(endpoints)
    }

    constructor (urls: seq<string>)
      ensures Valid() && Urls() == urls && roundRobinIndex == 0
      ensures forall i :: 0 <= i < |urls| ==> endpoints[i] == NewEndpoint(urls[i])
    {
      endpoints := seq(|urls|, i requires 0 <= i < |urls| => NewEndpoint(urls[i]));
      roundRobinIndex, history := 0, seq(|urls|, _ => []);
    }

    /** One incident of endpoint `i`. */
    method Update(i: nat, ep: EndpointState, ghost e: Incident)
      requires Valid() && i < |endpoints| && ep == After(endpoints[i], e) && ep.endpoint == endpoints[i].endpoint
      modifies this`endpoints, this`history
      ensures Valid() && endpoints == old(endpoints)[i := ep] && Urls() == old(Urls())
    {
      UpdatingKeepsUrls(endpoints, i, ep);
      hide Life, After;
      LifeGoesOn(ep.endpoint, history[i], e);
      endpoints := endpoints[i := ep];
      history := history[i := history[i] + [e]];
    }

    /** Expired open circuits of the pool become half-open. */
    method Consider(pool: seq<nat>, excluded: set<string>, now: int)
      requires Valid() && Ascending(pool)
      requires forall i: nat :: i in pool <==> InPool(endpoints, excluded, i)
      modifies this`endpoints, this`history
      ensures Valid() && endpoints == ConsideredAll(old(endpoints), excluded, now) && Urls() == old(Urls())
    {
      ConsideringKeepsUrls(endpoints, excluded, now);
      ghost var eps := endpoints;
      assert forall j :: 0 <= j < |pool| ==> pool[j] in pool;
      for k := 0 to |pool|
        invariant Valid() && |endpoints| == |eps|
        invariant forall i :: 0 <= i < |eps| ==>
          endpoints[i] == if i in pool[..k] then After(eps[i], Considered(now)) else eps[i]
      {
        var i := pool[k];
        assert i in pool && i !in pool[..k];
        assert pool[..k + 1] == pool[..k] + [i];
        var ep := endpoints[i];
        Update(i, if ep.state.Open? && now >= ep.openUntil then ep.(state := HalfOpen) else ep, Considered(now));
      }
      assert pool[..|pool|] == pool;
    }

    /** Among candidates: a closed one in turn, else the first half-open one, else the one to recover soonest. */
    method PickCandidate(candidates: seq<nat>, ghost before: seq<EndpointState>, ghost excluded: set<string>, ghost now: int)
      returns (chosen: nat)
      requires Valid() && endpoints == ConsideredAll(before, excluded, now)
      requires candidates != [] && Ascending(candidates)
      requires forall i: nat :: i in candidates <==> Candidate(before, excluded, now, i)
      modifies this
      ensures Valid() && BestChoice(before, excluded, now, chosen) && Urls() == old(Urls())
      ensures endpoints == old(endpoints)[chosen := After(old(endpoints)[chosen], Picked)]
      ensures !endpoints[chosen].state.Open?
      ensures if old(endpoints)[chosen].state.Closed?
        then roundRobinIndex == old(roundRobinIndex) + 1 && InTurn(before, excluded, now, old(roundRobinIndex), chosen)
        else roundRobinIndex == old(roundRobinIndex)
    {
      hide Life, Candidate, ConsideredAll, UrlsOf, Ascending, Where, SoonestOpen;
      var eps := endpoints;
      assert |eps| == |before| by { ConsideredLength(before, excluded, now); }
      assert forall i :: i in candidates ==> i < |eps| by { CandidatesExist(before, excluded, now); }
      var closed := Where(candidates, (i: nat) => i < |eps| && eps[i].state.Closed?);
      if |closed| > 0 {
        chosen := closed[roundRobinIndex % |closed|];
        roundRobinIndex := roundRobinIndex + 1;
        assert chosen in closed;
        assert InTurn(before, excluded, now, old(roundRobinIndex), chosen) by {
          assert ClosedCandidates(before, excluded, now, closed);
        }
        Update(chosen, eps[chosen], Picked);
        return;
      }
      assert forall i: nat :: i in candidates ==> i !in closed;
      var halfOpen := Where(candidates, (i: nat) => i < |eps| && eps[i].state.HalfOpen?);
      if |halfOpen| > 0 {
        chosen := halfOpen[0];
        FirstIsLeast(halfOpen);
        Update(chosen, eps[chosen], Picked);
        return;
      }
      assert forall i: nat :: i in candidates ==> i !in halfOpen;
      chosen := SoonestOpen(eps, candidates);
      Update(chosen, eps[chosen].(state := HalfOpen), Picked);
    }

    /** Never fails as long as there is an endpoint. The choice is the best one and is never left open. */
    method SelectEndpoint(excluded: set<string>, now: int) returns (r: Result<string>, ghost chosen: nat)
      requires Valid()
      modifies this
      ensures Valid() && Urls() == old(Urls())
      ensures r.Error? <==> |old(endpoints)| == 0
      ensures r.Done? ==>
        && BestChoice(old(endpoints), excluded, now, chosen) && r.value == old(endpoints)[chosen].endpoint
        && var mid := ConsideredAll(old(endpoints), excluded, now);
           && endpoints == mid[chosen := After(mid[chosen], Picked)] && !endpoints[chosen].state.Open?
           && (roundRobinIndex == old(roundRobinIndex) ||
               (roundRobinIndex == old(roundRobinIndex) + 1
                && InTurn(old(endpoints), excluded, now, old(roundRobinIndex), chosen)))
           && (mid[chosen].state.Closed? && roundRobinIndex == old(roundRobinIndex) ==>
                 forall i: nat :: InPool(old(endpoints), excluded, i) ==> i == chosen)
    {
      hide Life, BestChoice, Candidate, InPool, UrlsOf, Ascending, ConsideredAll, Where;
      if |endpoints| == 0 { return Error("No endpoints configured"), 0; }
      ghost var eps := endpoints;
      var pool := SelectionPool(excluded);
      Consider(pool, excluded, now);
      ConsideredLength(eps, excluded, now);
      if |pool| == 1 {
        var only := pool[0];
        OnlyOneToChoose(eps, excluded, now, pool);
        assert forall i: nat :: i in pool ==> i == only;
        BestChoiceExists(eps, excluded, now, only);
        var ep := endpoints[only];
        Update(only, ep.(state := if ep.state.Open? then HalfOpen else ep.state), Picked);
        return Done(ep.endpoint), only;
      }
      var candidates := Unthrottled(pool, eps, excluded, now);
      var picked := PickCandidate(candidates, eps, excluded, now);
      BestChoiceExists(eps, excluded, now, picked);
      return Done(endpoints[picked].endpoint), picked;
    }

    /** As many selections in a row as there are closed candidates, with no outcome recorded in between:
        each of them is picked exactly once. */
    method SelectRound(asks: seq<Ask>, ghost closed: seq<nat>) returns (urls: seq<string>, ghost picks: seq<nat>)
      requires Valid() && closed != [] && |asks| == |closed|
      requires forall k :: 0 <= k < |asks| ==> ClosedCandidates(endpoints, asks[k].excluded, asks[k].now, closed)
      modifies this
      ensures Valid() && EachOnce(closed, picks) && |urls| == |picks|
      ensures forall k :: 0 <= k < |urls| ==> picks[k] < |old(endpoints)| && urls[k] == old(endpoints)[picks[k]].endpoint
    {
      hide Life, ClosedCandidates, BestChoice, InTurn, InPool, SelectsAlike, ConsideredAll;
      ghost var eps, start := endpoints, roundRobinIndex;
      urls, picks := [], [];
      AlikeToItself(eps);
      SomethingToSelect(eps, asks[0], closed);
      for k := 0 to |asks|
        invariant Valid() && SelectsAlike(eps, endpoints) && |endpoints| == |eps| > 0
        invariant |urls| == |picks| == k && Round(closed, start, picks)
        invariant |closed| > 1 ==> roundRobinIndex == start + k
        invariant forall j :: 0 <= j < k ==> picks[j] < |eps| && urls[j] == eps[picks[j]].endpoint
      {
        ghost var before, turn := endpoints, roundRobinIndex;
        var selected, chosen := SelectEndpoint(asks[k].excluded, asks[k].now);
        BestChoiceExists(before, asks[k].excluded, asks[k].now, chosen);
        ConsideredLength(before, asks[k].excluded, asks[k].now);
        OneOfTheRound(eps, before, endpoints, asks[k], closed, roundRobinIndex != turn, turn, chosen);
        if |closed| == 1 { RemainderIs(start + k, 1, start + k, 0); RemainderIs(turn, 1, turn, 0); }
        urls := urls + [selected.value];
        picks := picks + [chosen];
      }
      IsAscending(eps, asks[0].excluded, asks[0].now, closed);
      FullRoundVisitsEachOnce(closed, start, picks);
    }

    method SelectionPool(excluded: set<string>) returns (pool: seq<nat>)
      requires |endpoints| > 0
      ensures pool != [] && Ascending(pool) && forall i: nat :: i in pool <==> InPool(endpoints, excluded, i)
    {
      hide InPool, Ascending;
      var eps := endpoints;
      var all := Indices(|eps|);
      IndicesAreAll(|eps|);
      var eligible := Where(all, (i: nat) => i < |eps| && eps[i].endpoint !in excluded);
      PoolIsPool(eps, excluded, all, eligible);
      return if |eligible| > 0 then eligible else all;
    }

    /** Considering does not touch rate limits, so they may be read before or after it. */
    method Unthrottled(pool: seq<nat>, ghost before: seq<EndpointState>, ghost excluded: set<string>, now: int)
      returns (candidates: seq<nat>)
      requires endpoints == ConsideredAll(before, excluded, now) && pool != [] && Ascending(pool)
      requires forall i: nat :: i in pool <==> InPool(before, excluded, i)
      ensures candidates != [] && Ascending(candidates)
      ensures forall i: nat :: i in candidates <==> Candidate(before, excluded, now, i)
    {
      hide InPool, Ascending;
      var eps := endpoints;
      var notRateLimited := Where(pool, (i: nat) => i < |eps| && eps[i].rateLimitedUntil <= now);
      assert forall i: nat :: i in pool ==> (i < |eps| && eps[i].rateLimitedUntil <= now <==>
                                             i < |before| && before[i].rateLimitedUntil <= now);
      CandidatesAreCandidates(before, excluded, now, pool, notRateLimited);
      return if |notRateLimited| > 0 then notRateLimited else pool;
    }

    method RecordSuccess(endpoint: string, latencyMs: int)
      requires Valid()
      modifies this`endpoints, this`history
      ensures Valid() && Urls() == old(Urls())
      ensures match FindEndpoint(old(endpoints), endpoint)
        case None => endpoints == old(endpoints)
        case Some(i) => endpoints == old(endpoints)[i := After(old(endpoints)[i], Succeeded(latencyMs))]
    {
      var found := FindEndpoint(endpoints, endpoint);
      if found.None? { return; }
      var ep := endpoints[found.value].(consecutiveFailures := 0);
      if ep.state.HalfOpen? { ep := ep.(state := Closed, cooldownMs := COOLDOWN_BASE_MS); }
      ep := ep.(latencies := ep.latencies + [latencyMs]);
      if |ep.latencies| > LATENCY_WINDOW { ep := ep.(latencies := ep.latencies[1..]); }
      Update(found.value, ep, Succeeded(latencyMs));
    }

    method RecordFailure(endpoint: string, category: Category, now: int, retryAfterMs: Option<nat>)
      requires Valid()
      modifies this`endpoints, this`history
      ensures Valid() && Urls() == old(Urls())
      ensures match FindEndpoint(old(endpoints), endpoint)
        case None => endpoints == old(endpoints)
        case Some(i) => endpoints == old(endpoints)[i := After(old(endpoints)[i], Failed(category, now, retryAfterMs))]
    {
      var found := FindEndpoint(endpoints, endpoint);
      if found.None? { return; }
      var i, ep := found.value, endpoints[found.value];
      ghost var e := Failed(category, now, retryAfterMs);
      if category.RateLimited? {
        var cooldown := if retryAfterMs.Some? then retryAfterMs.value else RATE_LIMIT_DEFAULT_MS;
        Update(i, ep.(rateLimitedUntil := now + cooldown), e);
        return;
      }
      ep := ep.(consecutiveFailures := ep.consecutiveFailures + 1);
      if ep.state.HalfOpen? {
        ep := ep.(cooldownMs := Min(ep.cooldownMs * COOLDOWN_MULTIPLIER, COOLDOWN_MAX_MS));
        Update(i, ep.(state := Open, openUntil := now + ep.cooldownMs), e);
        return;
      }
      if ep.state.Closed? && ep.consecutiveFailures >= OPEN_AFTER_FAILURES {
        ep := ep.(state := Open, openUntil := now + ep.cooldownMs);
      }
      Update(i, ep, e);
    }
  }

  lemma PoolIsPool(eps: seq<EndpointState>, excluded: set<string>, all: seq<nat>, eligible: seq<nat>)
    requires all == Indices(|eps|) && Ascending(eligible)
    requires forall i: nat :: i in eligible <==> i in all && i < |eps| && eps[i].endpoint !in excluded
    ensures var pool := if |eligible| > 0 then eligible else all;
      Ascending(pool) && forall i: nat :: i in pool <==> InPool(eps, excluded, i)
  {
    var pool := if |eligible| > 0 then eligible else all;
    IndicesAreAll(|eps|);
    if |eligible| > 0 {
      assert eligible[0] in eligible;
      forall i: nat ensures i in pool <==> InPool(eps, excluded, i) {}
    } else {
      forall i: nat | i < |eps| ensures eps[i].endpoint in excluded { assert i !in eligible; }
    }
  }

  lemma IndicesAreAll(n: nat)
    ensures forall i: nat :: i in Indices(n) <==> i < n
    ensures Ascending(Indices(n))
  {
    forall i: nat | i < n ensures i in Indices(n) { assert Indices(n)[i] == i; }
  }

  lemma OnlyOneToChoose(eps: seq<EndpointState>, excluded: set<string>, now: int, pool: seq<nat>)
    requires |pool| == 1 && forall i: nat :: i in pool <==> InPool(eps, excluded, i)
    ensures pool[0] in pool && BestChoice(eps, excluded, now, pool[0])
  {
    assert pool[0] in pool;
    forall i: nat | InPool(eps, excluded, i) ensures i == pool[0] { assert i in pool; }
  }

  lemma CandidatesAreCandidates(eps: seq<EndpointState>, excluded: set<string>, now: int, pool: seq<nat>, free: seq<nat>)
    requires forall i: nat :: i in pool <==> InPool(eps, excluded, i)
    requires forall i: nat :: i in free <==> i in pool && i < |eps| && eps[i].rateLimitedUntil <= now
    ensures forall i: nat :: i in (if |free| > 0 then free else pool) <==> Candidate(eps, excluded, now, i)
  {
    if |free| > 0 { assert free[0] in free; }
  }

  lemma ConsideredLength(eps: seq<EndpointState>, excluded: set<string>, now: int)
    ensures |ConsideredAll(eps, excluded, now)| == |eps|
  {}

  lemma CandidatesExist(eps: seq<EndpointState>, excluded: set<string>, now: int)
    ensures forall i: nat :: Candidate(eps, excluded, now, i) ==> i < |eps|
  {}

  lemma BestChoiceExists(eps: seq<EndpointState>, excluded: set<string>, now: int, chosen: nat)
    requires BestChoice(eps, excluded, now, chosen)
    ensures chosen < |eps| && ConsideredAll(eps, excluded, now)[chosen].endpoint == eps[chosen].endpoint
  {}

  /** Recovers no later than any of these, and is the earlier one on a tie. */
  ghost predicate Soonest(eps: seq<EndpointState>, idx: seq<nat>, r: nat)
    requires r < |eps| && forall i :: i in idx ==> i < |eps|
  {
    forall i :: i in idx ==> eps[r].openUntil <= eps[i].openUntil && (eps[i].openUntil == eps[r].openUntil ==> r <= i)
  }

  lemma OnlyIsSoonest(eps: seq<EndpointState>, idx: seq<nat>, last: nat)
    requires idx == [last] && last < |eps|
    ensures Soonest(eps, idx, last)
  {}

  lemma LaterIsSoonest(eps: seq<EndpointState>, idx: seq<nat>, front: seq<nat>, last: nat, best: nat)
    requires (forall i :: i in idx <==> i in front || i == last) && (forall i :: i in front ==> i < last)
    requires (forall i :: i in idx ==> i < |eps|) && last < |eps| && best < |eps| && best in front && Soonest(eps, front, best)
    ensures Soonest(eps, idx, if eps[last].openUntil < eps[best].openUntil then last else best)
  {}

  /** The first of the sorted candidates: least `openUntil`, the earlier one on a tie. */
  function SoonestOpen(eps: seq<EndpointState>, idx: seq<nat>): (r: nat)
    requires idx != [] && Ascending(idx) && forall i :: i in idx ==> i < |eps|
    ensures r in idx && Soonest(eps, idx, r)
  {
    hide Ascending, Soonest;
    var front, last := idx[..|idx| - 1], idx[|idx| - 1];
    FrontOf(idx, front, last);
    if front == [] then
      OnlyIsSoonest(eps, idx, last);
      last
    else
      var best := SoonestOpen(eps, front);
      LaterIsSoonest(eps, idx, front, last, best);
      if eps[last].openUntil < eps[best].openUntil then last else best
  }

  /** Whenever the pool holds a closed endpoint that is not rate limited, such a one is chosen. */
  lemma HealthyEndpointPreferred(eps: seq<EndpointState>, excluded: set<string>, now: int, chosen: nat, healthy: nat)
    requires BestChoice(eps, excluded, now, chosen)
    requires InPool(eps, excluded, healthy) && eps[healthy].state.Closed? && !Throttled(eps, now, healthy)
    ensures eps[chosen].state.Closed? && !Throttled(eps, now, chosen)
  {
    assert Candidate(eps, excluded, now, healthy);
  }

  /** An ascending list is determined by what it contains. */
  lemma {:induction false} AscendingIsUnique(a: seq<nat>, b: seq<nat>)
    requires Ascending(a) && Ascending(b) && forall i :: i in a <==> i in b
    ensures a == b
    decreases |a|
  {
    assert a != [] ==> a[0] in a;
    assert b != [] ==> b[0] in b;
    if a != [] && b != [] {
      FirstIsLeast(a);
      FirstIsLeast(b);
      assert a == [a[0]] + a[1..] && b == [b[0]] + b[1..];
      assert forall i :: i in a[1..] <==> i in a && i != a[0];
      assert forall i :: i in b[1..] <==> i in b && i != b[0];
      AscendingIsUnique(a[1..], b[1..]);
    }
  }

  lemma TurnOf(eps: seq<EndpointState>, excluded: set<string>, now: int, closed: seq<nat>, turn: nat, chosen: nat)
    requires ClosedCandidates(eps, excluded, now, closed) && InTurn(eps, excluded, now, turn, chosen)
    ensures closed != [] && chosen == closed[turn % |closed|]
  {
    hide Candidate, ConsideredAll, Ascending;
    var list: seq<nat> :| ClosedCandidates(eps, excluded, now, list) && list != [] && chosen == list[turn % |list|];
    AscendingIsUnique(list, closed);
  }

  /** Two picks of one round: whatever else has happened to the pool in between, as long as the same
      endpoints are the closed candidates, they differ. */
  lemma RoundRobinIsFair(
      eps0: seq<EndpointState>, excluded0: set<string>, now0: int, chosen0: nat,
      eps1: seq<EndpointState>, excluded1: set<string>, now1: int, chosen1: nat,
      closed: seq<nat>, start: nat, p: nat, q: nat)
    requires ClosedCandidates(eps0, excluded0, now0, closed) && InTurn(eps0, excluded0, now0, start + p, chosen0)
    requires ClosedCandidates(eps1, excluded1, now1, closed) && InTurn(eps1, excluded1, now1, start + q, chosen1)
    requires p < q < |closed|
    ensures chosen0 != chosen1 && chosen0 in closed && chosen1 in closed
  {
    hide ClosedCandidates, InTurn;
    TurnOf(eps0, excluded0, now0, closed, start + p, chosen0);
    TurnOf(eps1, excluded1, now1, closed, start + q, chosen1);
    IsAscending(eps0, excluded0, now0, closed);
    DifferentTurns(start, |closed|, p, q);
  }

  lemma IsAscending(eps: seq<EndpointState>, excluded: set<string>, now: int, closed: seq<nat>)
    requires ClosedCandidates(eps, excluded, now, closed)
    ensures Ascending(closed)
  {}

  /** A round of picks, each at its turn. */
  ghost predicate Round(closed: seq<nat>, start: nat, picks: seq<nat>)
    requires closed != []
  {
    forall k :: 0 <= k < |picks| ==> picks[k] == closed[(start + k) % |closed|]
  }

  /** Every closed candidate exactly once. */
  ghost predicate EachOnce(closed: seq<nat>, picks: seq<nat>) {
    && |picks| == |closed|
    && (forall i, j :: 0 <= i < j < |picks| ==> picks[i] != picks[j])
    && forall i :: i in picks <==> i in closed
  }

  lemma FullRoundVisitsEachOnce(closed: seq<nat>, start: nat, picks: seq<nat>)
    requires closed != [] && Ascending(closed) && |picks| == |closed| && Round(closed, start, picks)
    ensures EachOnce(closed, picks)
  {
    var n := |closed|;
    forall i, j | 0 <= i < j < n ensures picks[i] != picks[j] { DifferentTurns(start, n, i, j); }
    forall m | 0 <= m < n ensures closed[m] in picks {
      var k := TurnTo(start, n, m);
      assert picks[k] == closed[m];
    }
  }

  /** How many turns on from `start` place `m` is reached. */
  lemma TurnTo(start: nat, n: nat, m: nat) returns (k: nat)
    requires m < n
    ensures k < n && (start + k) % n == m
  {
    var q, s := start / n, start % n;
    assert start == n * q + s;
    k := if m < s then m + n - s else m - s;
    if m < s {
      StepUp(n, q);
      RemainderIs(start + k, n, q + 1, m);
    } else {
      RemainderIs(start + k, n, q, m);
    }
  }

  lemma RemainderIs(x: nat, n: nat, q: nat, r: nat)
    requires r < n && x == n * q + r
    ensures x % n == r
  {
    assert x == n * (x / n) + x % n;
    if x / n != q { Apart(n, x / n, q); }
  }

  // ---- A selection leaves alone what later selections go by ----

  ghost predicate SelectsAlike(eps: seq<EndpointState>, later: seq<EndpointState>) {
    |eps| == |later| && forall i :: 0 <= i < |eps| ==>
      && eps[i].endpoint == later[i].endpoint && eps[i].rateLimitedUntil == later[i].rateLimitedUntil
      && (eps[i].state.Closed? <==> later[i].state.Closed?)
  }

  lemma SelectionKeepsSelecting(eps: seq<EndpointState>, excluded: set<string>, now: int, chosen: nat)
    requires chosen < |eps|
    ensures |ConsideredAll(eps, excluded, now)| == |eps|
    ensures var mid := ConsideredAll(eps, excluded, now);
      SelectsAlike(eps, mid[chosen := After(mid[chosen], Picked)])
  {
    hide InPool;
  }

  lemma SameClosedCandidates(eps: seq<EndpointState>, later: seq<EndpointState>, excluded: set<string>, now: int, closed: seq<nat>)
    requires SelectsAlike(eps, later) && ClosedCandidates(eps, excluded, now, closed)
    ensures ClosedCandidates(later, excluded, now, closed)
  {
    hide Ascending;
    forall i: int ensures InPool(eps, excluded, i) <==> InPool(later, excluded, i) {}
    assert forall i: nat :: Candidate(eps, excluded, now, i) <==> Candidate(later, excluded, now, i);
  }

  /** What a selection with closed candidates comes to. */
  lemma ClosedChoice(eps: seq<EndpointState>, excluded: set<string>, now: int, closed: seq<nat>, chosen: nat)
    requires ClosedCandidates(eps, excluded, now, closed) && closed != [] && BestChoice(eps, excluded, now, chosen)
    ensures chosen in closed && ConsideredAll(eps, excluded, now)[chosen].state.Closed?
    ensures (forall i: nat :: InPool(eps, excluded, i) ==> i == chosen) ==> closed == [chosen]
  {
    hide InPool;
    assert closed[0] in closed;
    assert chosen in closed;
    if forall i: nat :: InPool(eps, excluded, i) ==> i == chosen {
      assert forall i: nat :: i in closed <==> i == chosen;
      AscendingIsUnique(closed, [chosen]);
    }
  }

  lemma SomethingToSelect(eps: seq<EndpointState>, ask: Ask, closed: seq<nat>)
    requires ClosedCandidates(eps, ask.excluded, ask.now, closed) && closed != []
    ensures |eps| > 0
  {
    assert closed[0] in closed;
  }

  lemma AlikeToItself(eps: seq<EndpointState>)
    ensures SelectsAlike(eps, eps)
  {}

  lemma AlikeOnceMore(eps: seq<EndpointState>, before: seq<EndpointState>, after: seq<EndpointState>)
    requires SelectsAlike(eps, before) && SelectsAlike(before, after)
    ensures SelectsAlike(eps, after)
  {}

  /** One selection of a round: it takes its turn, or there is nothing to take turns about. */
  lemma OneOfTheRound(eps: seq<EndpointState>, before: seq<EndpointState>, after: seq<EndpointState>, ask: Ask,
                      closed: seq<nat>, moved: bool, turn: nat, chosen: nat)
    requires SelectsAlike(eps, before) && ClosedCandidates(eps, ask.excluded, ask.now, closed) && closed != []
    requires BestChoice(before, ask.excluded, ask.now, chosen)
    requires var mid := ConsideredAll(before, ask.excluded, ask.now);
      && chosen < |mid| && after == mid[chosen := After(mid[chosen], Picked)]
      && (!moved && mid[chosen].state.Closed? ==> forall i: nat :: InPool(before, ask.excluded, i) ==> i == chosen)
    requires moved ==> InTurn(before, ask.excluded, ask.now, turn, chosen)
    ensures SelectsAlike(eps, after) && |eps| == |before| == |after| && chosen < |eps| && eps[chosen].endpoint == before[chosen].endpoint
    ensures if moved then chosen == closed[turn % |closed|] else closed == [chosen]
  {
    hide InPool, After, BestChoice, ClosedCandidates, InTurn, ConsideredAll, Candidate;
    SameClosedCandidates(eps, before, ask.excluded, ask.now, closed);
    ClosedChoice(before, ask.excluded, ask.now, closed, chosen);
    ConsideredLength(before, ask.excluded, ask.now);
    SelectionKeepsSelecting(before, ask.excluded, ask.now, chosen);
    AlikeOnceMore(eps, before, after);
    if moved { TurnOf(before, ask.excluded, ask.now, closed, turn, chosen); }
  }

  lemma DifferentTurns(start: nat, n: nat, a: nat, b: nat)
    requires a < b < n
    ensures (start + a) % n != (start + b) % n
  {
    var x, y := start + a, start + b;
    if x % n == y % n {
      assert x == n * (x / n) + x % n && y == n * (y / n) + y % n;
      if x / n != y / n { Apart(n, x / n, y / n); }
    }
  }

  lemma {:induction false} Apart(n: nat, p: nat, q: nat)
    requires p != q
    ensures n * p + n <= n * q || n * q + n <= n * p
  {
    if p > q { Apart(n, q, p); } else if p + 1 < q { Apart(n, p, q - 1); }
    StepUp(n, p);
    if q > 0 { StepUp(n, q - 1); }
  }

  lemma StepUp(n: nat, p: nat)
    ensures n * (p + 1) == n * p + n
  {}
}
