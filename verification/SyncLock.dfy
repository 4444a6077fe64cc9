/** The session lock of one indexer process: its dedicated connection, its heartbeat timer, and the
    close events that may arrive at any time. (packages/indexer/src/scanner/sync-lock.ts) */
module SyncLocks {

  /** Connections and timers are numbered in the order they are created. */
  datatype LockState = Idle | Connected(sql: nat) | Held(sql: nat, heartbeat: nat)
  {
    predicate Names(c: nat) { !Idle? && sql == c }
  }

  datatype Reply = Row(acquired: bool) | Thrown(error: string)

  datatype AcquireStart = AlreadyHeld | Query(sql: nat)

  datatype AcquireResult = Acquired | Busy | Unavailable(error: string)

  /** What can happen between two awaits of the process. */
  datatype Event =
    | AcquireBegins
    | AcquireAnswered(sql: nat, reply: Reply)
    | ReleaseBegins
    | Closes(sql: nat)

  /** `running` maps each live timer to the connection it probes; `granted` and `closed` are the
      connections the server has granted the lock on and those whose close event has fired. */
  datatype Lock = Lock(state: LockState, created: nat, timers: nat, running: map<nat, nat>,
                       granted: set<nat>, closed: set<nat>)

  const NEW_LOCK := Lock(Idle, 0, 0, map[], {}, {})

  /** Only connections that exist can answer or close. */
  predicate Possible(l: Lock, e: Event) {
    match e
    case AcquireAnswered(sql, _) => sql < l.created
    case Closes(sql) => sql < l.created
    case _ => true
  }

  function Dropped(l: Lock): Lock { l.(state := Idle, running := map[]) }

  /** The meaning of an event: a grant counts only on the connection still waited for, a failed attempt
      gives up whatever there is, and a close matters only for the connection in use. */
  function After(l: Lock, e: Event): Lock {
    match e
    case AcquireBegins =>
      if l.state.Idle? then l.(state := Connected(l.created), created := l.created + 1) else l
    case AcquireAnswered(sql, Thrown(_)) => Dropped(l)
    case AcquireAnswered(sql, Row(acquired)) =>
      if !acquired then l
      else if l.state == Connected(sql) then
        l.(state := Held(sql, l.timers), timers := l.timers + 1,
           running := l.running[l.timers := sql], granted := l.granted + {sql})
      else l.(granted := l.granted + {sql})
    case ReleaseBegins => Dropped(l)
    case Closes(sql) =>
      if l.state.Names(sql) then Dropped(l).(closed := l.closed + {sql}) else l.(closed := l.closed + {sql})
  }

  class LockManager {
    var state: LockState
    var created: nat
    var timers: nat
    var running: map<nat, nat>
    ghost var granted: set<nat>
    ghost var closed: set<nat>

    ghost function View(): Lock
      reads this
    {
      Lock(state, created, timers, running, granted, closed)
    }

    ghost predicate OneTimer()
      reads this
    {
      running.Keys == if state.Held? then {state.heartbeat} else {}
    }

    constructor ()
      ensures View() == NEW_LOCK
    {
      state, created, timers, running, granted, closed := Idle, 0, 0, map[], {}, {};
    }

    /** Up to the query: reuse a live connection, or create one. */
    method BeginAcquire() returns (r: AcquireStart)
      modifies this
      ensures View() == After(old(View()), AcquireBegins)
      ensures r == if state.Held? then AlreadyHeld else Query(state.sql)
      ensures r.Query? ==> state == Connected(r.sql)
    {
      if state.Held? { return AlreadyHeld; }
      var sql := if state.Connected? then state.sql else created;
      if state.Idle? {
        created := created + 1;
        state := Connected(sql);
      }
      return Query(sql);
    }

    /** After the query: stamp `held` only on the connection that is still ours. */
    method FinishAcquire(sql: nat, reply: Reply) returns (r: AcquireResult)
      requires OneTimer()
      modifies this
      ensures View() == After(old(View()), AcquireAnswered(sql, reply))
      ensures r.Acquired? <==> reply == Row(true) && old(state) == Connected(sql)
      ensures r.Acquired? ==> state.Held? && state.sql == sql
      ensures r.Busy? <==> reply == Row(false)
    {
      if reply.Thrown? {
        var previous := BeginRelease();
        return Unavailable(reply.error);
      }
      if !reply.acquired { return Busy; }
      granted := granted + {sql};
      if !state.Connected? || state.sql != sql {
        return Unavailable("Connection closed during lock acquisition");
      }
      var heartbeat := StartHeartbeat(sql);
      state := Held(sql, heartbeat);
      return Acquired;
    }

    method StartHeartbeat(sql: nat) returns (timer: nat)
      modifies this`timers, this`running
      ensures timer == old(timers) && timers == old(timers) + 1 && running == old(running)[timer := sql]
    {
      timer := timers;
      timers, running := timers + 1, running[timer := sql];
    }

    method ClearInterval(timer: nat)
      modifies this`running
      ensures running == old(running) - {timer}
    {
      running := running - {timer};
    }

    /** The synchronous part of a release; unlocking and ending the old connection touch no state. */
    method BeginRelease() returns (previous: LockState)
      requires OneTimer()
      modifies this
      ensures View() == After(old(View()), ReleaseBegins)
      ensures previous == old(state)
    {
      previous := state;
      if previous.Idle? { return; }
      state := Idle;
      if previous.Held? { ClearInterval(previous.heartbeat); }
    }

    /** The close callback of connection `sql`. */
    method OnClose(sql: nat)
      requires OneTimer()
      modifies this
      ensures View() == After(old(View()), Closes(sql))
    {
      closed := closed + {sql};
      if state.Idle? { return; }
      if state.sql != sql { return; }
      if state.Held? { ClearInterval(state.heartbeat); }
      state := Idle;
    }

    /** True only when a held connection answered. */
    method VerifyLockHeld(answered: bool) returns (held: bool)
      ensures held <==> state.Held? && answered
    {
      if !state.Held? { return false; }
      return answered;
    }

    /** The callbacks of a process in any order. */
    method Drive(events: seq<Event>)
      requires Sound(View()) && PossibleRun(View(), events)
      modifies this
      ensures View() == Final(old(View()), events) && Sound(View())
    {
      for i := 0 to |events|
        invariant Sound(View()) && PossibleRun(View(), events[i..])
        invariant Final(View(), events[i..]) == Final(old(View()), events)
      {
        assert events[i..][1..] == events[i + 1..];
        StepIsSound(View(), events[i]);
        match events[i] {
          case AcquireBegins => var start := BeginAcquire();
          case AcquireAnswered(sql, reply) => var result := FinishAcquire(sql, reply);
          case ReleaseBegins => var previous := BeginRelease();
          case Closes(sql) => OnClose(sql);
        }
      }
    }
  }

  // ---- What holds in every run ----

  ghost predicate PossibleRun(l: Lock, events: seq<Event>)
    decreases |events|
  {
    events == [] || (Possible(l, events[0]) && PossibleRun(After(l, events[0]), events[1..]))
  }

  ghost function Final(l: Lock, events: seq<Event>): Lock
    decreases |events|
  {
    if events == [] then l else Final(After(l, events[0]), events[1..])
  }

  /** The connection in use exists and its close event has not fired; a held one was granted the lock;
      and exactly one timer runs, probing that connection, if and only if the lock is held. */
  ghost predicate Sound(l: Lock) {
    && (!l.state.Idle? ==> l.state.sql < l.created && l.state.sql !in l.closed)
    && (forall c :: c in l.closed || c in l.granted ==> c < l.created)
    && (l.state.Held? ==>
          && l.state.sql in l.granted
          && l.state.heartbeat < l.timers
          && l.running == map[l.state.heartbeat := l.state.sql])
    && (!l.state.Held? ==> l.running == map[])
  }

  lemma StepIsSound(l: Lock, e: Event)
    requires Sound(l) && Possible(l, e)
    ensures Sound(After(l, e))
  {}

  /** Whatever the order in which attempts answer, releases run and connections close. */
  lemma {:induction false} EveryRunIsSound(events: seq<Event>)
    requires PossibleRun(NEW_LOCK, events)
    ensures Sound(Final(NEW_LOCK, events))
  {
    StaysSound(NEW_LOCK, events);
  }

  lemma {:induction false} StaysSound(l: Lock, events: seq<Event>)
    requires Sound(l) && PossibleRun(l, events)
    ensures Sound(Final(l, events))
    decreases |events|
  {
    if events != [] {
      StepIsSound(l, events[0]);
      StaysSound(After(l, events[0]), events[1..]);
    }
  }

  /** Close events of other connections, however many, change neither state nor timers. */
  lemma {:induction false} StaleClosesChangeNothing(l: Lock, stale: seq<nat>)
    requires forall c :: c in stale ==> !l.state.Names(c)
    ensures var l' := Final(l, seq(|stale|, i requires 0 <= i < |stale| => Closes(stale[i])));
      l'.state == l.state && l'.running == l.running
    decreases |stale|
  {
    if stale != [] {
      var events := seq(|stale|, i requires 0 <= i < |stale| => Closes(stale[i]));
      var rest := stale[1..];
      assert events[1..] == seq(|rest|, i requires 0 <= i < |rest| => Closes(rest[i]));
      StaleClosesChangeNothing(After(l, events[0]), rest);
    }
  }

  /** A closed connection never comes back: no later state names it, in any continuation of any run. */
  lemma {:induction false} ClosedForGood(l: Lock, events: seq<Event>, c: nat)
    requires Sound(l) && PossibleRun(l, events) && c in l.closed
    ensures c in Final(l, events).closed && !Final(l, events).state.Names(c)
    decreases |events|
  {
    if events != [] {
      StepIsSound(l, events[0]);
      ClosedForGood(After(l, events[0]), events[1..], c);
    }
  }

  /** `n` times the same event. */
  function Times(n: nat, e: Event): seq<Event> { seq(n, _ => e) }

  lemma {:induction false} TimesWithoutEffect(l: Lock, n: nat, e: Event)
    requires After(l, e) == l
    ensures Final(l, Times(n, e)) == l
  {
    if n > 0 {
      assert Times(n, e)[1..] == Times(n - 1, e);
      TimesWithoutEffect(l, n - 1, e);
    }
  }

  lemma {:induction false} FinalInTwo(l: Lock, a: seq<Event>, b: seq<Event>)
    ensures Final(l, a + b) == Final(Final(l, a), b)
    decreases |a|
  {
    if a == [] { assert a + b == b; } else {
      assert (a + b)[1..] == a[1..] + b;
      FinalInTwo(After(l, a[0]), a[1..], b);
    }
  }

  /** However many attempts share a connection and however many of them are granted: one connection is
      created, one of them reports the lock, and one timer is started. */
  lemma ConcurrentAttemptsHoldOnce(l: Lock, attempts: nat, grants: nat)
    requires Sound(l) && l.state.Idle? && attempts >= 1 && grants >= 1
    ensures var l' := Final(l, Times(attempts, AcquireBegins) + Times(grants, AcquireAnswered(l.created, Row(true))));
      l'.state == Held(l.created, l.timers) && l'.timers == l.timers + 1 && l'.created == l.created + 1
  {
    var grant := AcquireAnswered(l.created, Row(true));
    var l1 := After(l, AcquireBegins);
    var l2 := After(l1, grant);
    assert Times(attempts, AcquireBegins)[1..] == Times(attempts - 1, AcquireBegins);
    TimesWithoutEffect(l1, attempts - 1, AcquireBegins);
    assert Times(grants, grant)[1..] == Times(grants - 1, grant);
    assert l2.granted + {l.created} == l2.granted;
    TimesWithoutEffect(l2, grants - 1, grant);
    FinalInTwo(l, Times(attempts, AcquireBegins), Times(grants, grant));
  }

  // ---- When a failed attempt costs a lock ----

  /** The lock together with the connections whose query has not been answered yet. */
  datatype Tracked = Tracked(lock: Lock, pending: multiset<nat>)

  const NEW_TRACKED := Tracked(NEW_LOCK, multiset{})

  /** An attempt that goes on to a query; on a held lock it returns at once. */
  predicate StartsAttempt(t: Tracked, e: Event) { e.AcquireBegins? && !t.lock.state.Held? }

  function Track(t: Tracked, e: Event): Tracked {
    var l := After(t.lock, e);
    if StartsAttempt(t, e) then Tracked(l, t.pending + multiset{l.state.sql})
    else if e.AcquireAnswered? then Tracked(l, t.pending - multiset{e.sql})
    else Tracked(l, t.pending)
  }

  function TrackAll(t: Tracked, events: seq<Event>): Tracked {
    if events == [] then t else Track(TrackAll(t, events[..|events| - 1]), events[|events| - 1])
  }

  /** Only an outstanding query is answered, only an existing connection closes, and the process never has
      more than `k` attempts outstanding. */
  predicate Admissible(t: Tracked, k: nat, e: Event) {
    && (e.AcquireAnswered? ==> e.sql in t.pending)
    && (e.Closes? ==> e.sql < t.lock.created)
    && (StartsAttempt(t, e) ==> |t.pending| < k)
  }

  predicate AdmissibleRun(t: Tracked, k: nat, events: seq<Event>) {
    events == [] ||
    (AdmissibleRun(t, k, events[..|events| - 1]) && Admissible(TrackAll(t, events[..|events| - 1]), k, events[|events| - 1]))
  }

  /** The event is a failed attempt that gives up a lock held at that moment. */
  predicate CostsLock(t: Tracked, e: Event) {
    e.AcquireAnswered? && e.reply.Thrown? && t.lock.state.Held? && After(t.lock, e).state.Idle?
  }

  ghost predicate CanLoseLock(k: nat) {
    exists events, e :: AdmissibleRun(NEW_TRACKED, k, events + [e]) && CostsLock(TrackAll(NEW_TRACKED, events), e)
  }

  ghost predicate TrackedSoundly(t: Tracked) {
    Sound(t.lock) && forall c :: c in t.pending ==> c < t.lock.created
  }

  lemma TrackStaysSound(t: Tracked, k: nat, e: Event)
    requires TrackedSoundly(t) && Admissible(t, k, e)
    ensures TrackedSoundly(Track(t, e))
  {
    StepIsSound(t.lock, e);
  }

  lemma {:induction false} TrackedStaysSound(t: Tracked, k: nat, events: seq<Event>)
    requires TrackedSoundly(t) && AdmissibleRun(t, k, events)
    ensures TrackedSoundly(TrackAll(t, events))
  {
    hide Track, Admissible, TrackedSoundly;
    if events != [] {
      var front, e := events[..|events| - 1], events[|events| - 1];
      TrackedStaysSound(t, k, front);
      TrackStaysSound(TrackAll(t, front), k, e);
    }
  }

  lemma {:induction false} TrackInTwo(t: Tracked, k: nat, a: seq<Event>, b: seq<Event>)
    ensures TrackAll(t, a + b) == TrackAll(TrackAll(t, a), b)
    ensures AdmissibleRun(t, k, a + b) <==> AdmissibleRun(t, k, a) && AdmissibleRun(TrackAll(t, a), k, b)
  {
    hide Track, Admissible;
    if b == [] { assert a + b == a; } else {
      TrackInTwo(t, k, a, b[..|b| - 1]);
      assert (a + b)[..|a + b| - 1] == a + b[..|b| - 1];
    }
  }

  /** An admissible run is a run of the lock. */
  lemma {:induction false} AdmissibleRunIsPossible(t: Tracked, k: nat, events: seq<Event>)
    requires TrackedSoundly(t) && AdmissibleRun(t, k, events)
    ensures PossibleRun(t.lock, events) && Final(t.lock, events) == TrackAll(t, events).lock
    decreases |events|
  {
    if events != [] {
      var e := events[0];
      assert events == [e] + events[1..];
      TrackInTwo(t, k, [e], events[1..]);
      TrackOne(t, k, e);
      TrackedStaysSound(t, k, [e]);
      AdmissibleRunIsPossible(Track(t, e), k, events[1..]);
    }
  }

  lemma TrackOne(t: Tracked, k: nat, e: Event)
    ensures TrackAll(t, [e]) == Track(t, e) && (AdmissibleRun(t, k, [e]) <==> Admissible(t, k, e))
  {
    hide Track, Admissible;
    assert [e][..0] == [] && TrackAll(t, []) == t && AdmissibleRun(t, k, []);
  }

  /** While attempts do not overlap, a held lock has no attempt outstanding. */
  ghost predicate NothingOutstandingWhenHeld(t: Tracked) {
    |t.pending| <= 1 && (t.lock.state.Held? ==> t.pending == multiset{})
  }

  lemma OnlyElement(pending: multiset<nat>, c: nat)
    requires |pending| <= 1 && c in pending
    ensures pending - multiset{c} == multiset{}
  {
    assert pending == multiset{c} + (pending - multiset{c});
  }

  lemma {:induction false} SequentialAttempts(k: nat, events: seq<Event>)
    requires k <= 1 && AdmissibleRun(NEW_TRACKED, k, events)
    ensures NothingOutstandingWhenHeld(TrackAll(NEW_TRACKED, events))
  {
    if events != [] {
      var front, e := events[..|events| - 1], events[|events| - 1];
      SequentialAttempts(k, front);
      if e.AcquireAnswered? { OnlyElement(TrackAll(NEW_TRACKED, front).pending, e.sql); }
    }
  }

  /** In every run whose attempts do not overlap, no failed attempt ever arrives while the lock is held. */
  lemma SequentialAttemptsKeepTheLock(k: nat, events: seq<Event>, e: Event)
    requires k <= 1 && AdmissibleRun(NEW_TRACKED, k, events + [e])
    ensures e.AcquireAnswered? ==> !TrackAll(NEW_TRACKED, events).lock.state.Held?
    ensures !CostsLock(TrackAll(NEW_TRACKED, events), e)
  {
    assert (events + [e])[..|events|] == events;
    SequentialAttempts(k, events);
  }

  function CloseInUse(t: Tracked): seq<Event> {
    if t.lock.state.Idle? then [] else [Closes(t.lock.state.sql)]
  }

  /** Closing what is in use, and taking the lock on a new connection. */
  function Overlapping(t: Tracked): seq<Event> {
    CloseInUse(t) + [AcquireBegins, AcquireAnswered(t.lock.created, Row(true))]
  }

  lemma AfterCloseInUse(t: Tracked, k: nat)
    requires TrackedSoundly(t)
    ensures var t' := TrackAll(t, CloseInUse(t));
      AdmissibleRun(t, k, CloseInUse(t)) && t'.lock.state.Idle? && t'.lock.created == t.lock.created && t'.pending == t.pending
  {
    if !t.lock.state.Idle? { TrackOne(t, k, Closes(t.lock.state.sql)); }
  }

  lemma NewAttemptThenFailure(t: Tracked, c: nat, k: nat)
    requires t.lock.state.Idle? && c in t.pending && c < t.lock.created && |t.pending| < k
    ensures var a, b, e := AcquireBegins, AcquireAnswered(t.lock.created, Row(true)), AcquireAnswered(c, Thrown("connection closed"));
      && AdmissibleRun(t, k, [a, b, e])
      && CostsLock(TrackAll(t, [a, b]), e)
      && TrackAll(t, [a, b]).lock.state.sql == t.lock.created
  {
    hide AdmissibleRun, TrackAll;
    var n := t.lock.created;
    var a, b, e := AcquireBegins, AcquireAnswered(n, Row(true)), AcquireAnswered(c, Thrown("connection closed"));
    var t2 := Track(t, a);
    assert t2.lock.state == Connected(n) && t2.pending == t.pending + multiset{n};
    var t3 := Track(t2, b);
    assert t3.lock.state.Held? && t3.lock.state.sql == n && t3.pending == t.pending;
    ThreeEvents(t, k, a, b, e);
  }

  /** Wherever an attempt is outstanding, one more attempt is enough: the run goes on to a state in which
      the lock is held on another connection, and the failure of the outstanding attempt gives it up. */
  lemma OutstandingAttemptCanCostALock(t: Tracked, c: nat, k: nat)
    requires TrackedSoundly(t) && c in t.pending && |t.pending| < k
    ensures var e := AcquireAnswered(c, Thrown("connection closed"));
      && AdmissibleRun(t, k, Overlapping(t) + [e])
      && CostsLock(TrackAll(t, Overlapping(t)), e)
      && TrackAll(t, Overlapping(t)).lock.state.sql == t.lock.created > c
  {
    hide AdmissibleRun, TrackAll, CloseInUse, CostsLock, Sound;
    var closes := CloseInUse(t);
    AfterCloseInUse(t, k);
    var t1 := TrackAll(t, closes);
    NewAttemptThenFailure(t1, c, k);
    var a, b, e := AcquireBegins, AcquireAnswered(t.lock.created, Row(true)), AcquireAnswered(c, Thrown("connection closed"));
    TrackInTwo(t, k, closes, [a, b]);
    TrackInTwo(t, k, closes, [a, b, e]);
    assert Overlapping(t) + [e] == closes + [a, b, e];
  }

  lemma ThreeEvents(t: Tracked, k: nat, a: Event, b: Event, c: Event)
    ensures TrackAll(t, [a, b]) == Track(Track(t, a), b)
    ensures AdmissibleRun(t, k, [a, b, c]) <==>
      Admissible(t, k, a) && Admissible(Track(t, a), k, b) && Admissible(Track(Track(t, a), b), k, c)
  {
    hide Track, Admissible;
    TrackOne(t, k, a);
    assert [a, b][..1] == [a] && [a, b, c][..2] == [a, b];
    assert TrackAll(t, [a, b]) == Track(TrackAll(t, [a]), b);
    assert AdmissibleRun(t, k, [a, b]) <==> AdmissibleRun(t, k, [a]) && Admissible(TrackAll(t, [a]), k, b);
  }

  /** A process with at most `k` attempts outstanding at a time can lose a held lock to a failed attempt
      if and only if `k` allows two of them to overlap. */
  lemma LockIsLostIffAttemptsOverlap(k: nat)
    ensures CanLoseLock(k) <==> k >= 2
  {
    if k <= 1 {
      forall events, e | AdmissibleRun(NEW_TRACKED, k, events + [e])
        ensures !CostsLock(TrackAll(NEW_TRACKED, events), e)
      {
        SequentialAttemptsKeepTheLock(k, events, e);
      }
    } else {
      TwoAttemptsAreEnough(k);
    }
  }

  lemma TwoAttemptsAreEnough(k: nat)
    requires k >= 2
    ensures CanLoseLock(k)
  {
    hide AdmissibleRun, TrackAll, Track, Overlapping, CostsLock;
    var first, e := [AcquireBegins], AcquireAnswered(0, Thrown("connection closed"));
    FirstAttempt(k);
    var t := TrackAll(NEW_TRACKED, first);
    OutstandingAttemptCanCostALock(t, 0, k);
    TrackInTwo(NEW_TRACKED, k, first, Overlapping(t) + [e]);
    TrackInTwo(NEW_TRACKED, k, first, Overlapping(t));
    assert first + (Overlapping(t) + [e]) == (first + Overlapping(t)) + [e];
  }

  lemma FirstAttempt(k: nat)
    requires k >= 1
    ensures var t := TrackAll(NEW_TRACKED, [AcquireBegins]);
      AdmissibleRun(NEW_TRACKED, k, [AcquireBegins]) && TrackedSoundly(t) && t.pending == multiset{0}
  {
    TrackOne(NEW_TRACKED, k, AcquireBegins);
  }

  // ---- The one caller there is ----

  /** A turn of the waiting loop: what happens before the attempt, what happens while it waits, its answer. */
  datatype Round = Round(before: seq<Event>, during: seq<Event>, reply: Reply)

  /** Releases and closes, but no attempt of its own. */
  predicate Bystanders(t: Tracked, events: seq<Event>) {
    forall i :: 0 <= i < |events| ==> events[i].ReleaseBegins? || (events[i].Closes? && events[i].sql < t.lock.created)
  }

  /** One turn of `waitForLock`: an attempt that queries is answered before the turn ends. */
  function RoundEvents(t: Tracked, r: Round): seq<Event> {
    var t0 := TrackAll(t, r.before);
    var t1 := Track(t0, AcquireBegins);
    r.before + [AcquireBegins]
    + if t0.lock.state.Held? then [] else r.during + [AcquireAnswered(t1.lock.state.sql, r.reply)]
  }

  function WaitingLoop(t: Tracked, rounds: seq<Round>): seq<Event>
    decreases |rounds|
  {
    if rounds == [] then []
    else RoundEvents(t, rounds[0]) + WaitingLoop(TrackAll(t, RoundEvents(t, rounds[0])), rounds[1..])
  }

  /** All other events of the rounds are releases and closes. */
  predicate OnlyBystanders(t: Tracked, rounds: seq<Round>)
    decreases |rounds|
  {
    rounds == [] ||
    (Bystanders(t, rounds[0].before)
     && Bystanders(Track(TrackAll(t, rounds[0].before), AcquireBegins), rounds[0].during)
     && OnlyBystanders(TrackAll(t, RoundEvents(t, rounds[0])), rounds[1..]))
  }

  lemma {:induction false} BystandersStartNothing(t: Tracked, k: nat, events: seq<Event>)
    requires Bystanders(t, events)
    ensures AdmissibleRun(t, k, events)
    ensures TrackAll(t, events).pending == t.pending && TrackAll(t, events).lock.created == t.lock.created
  {
    if events != [] { BystandersStartNothing(t, k, events[..|events| - 1]); }
  }

  lemma OneRound(t: Tracked, r: Round)
    requires t.pending == multiset{} && Bystanders(t, r.before)
    requires Bystanders(Track(TrackAll(t, r.before), AcquireBegins), r.during)
    ensures AdmissibleRun(t, 1, RoundEvents(t, r)) && TrackAll(t, RoundEvents(t, r)).pending == multiset{}
  {
    BystandersStartNothing(t, 1, r.before);
    var t0 := TrackAll(t, r.before);
    var t1 := Track(t0, AcquireBegins);
    TrackOne(t0, 1, AcquireBegins);
    TrackInTwo(t, 1, r.before, [AcquireBegins]);
    if !t0.lock.state.Held? {
      var answer := AcquireAnswered(t1.lock.state.sql, r.reply);
      BystandersStartNothing(t1, 1, r.during);
      TrackInTwo(t1, 1, r.during, [answer]);
      TrackOne(TrackAll(t1, r.during), 1, answer);
      TrackInTwo(t, 1, r.before + [AcquireBegins], r.during + [answer]);
    } else {
      assert RoundEvents(t, r) == r.before + [AcquireBegins];
    }
  }

  /** The waiting loop never has two attempts outstanding, so no attempt of its own costs it a lock. */
  lemma {:induction false} WaitingLoopIsSequential(t: Tracked, rounds: seq<Round>)
    requires t.pending == multiset{} && OnlyBystanders(t, rounds)
    ensures AdmissibleRun(t, 1, WaitingLoop(t, rounds)) && TrackAll(t, WaitingLoop(t, rounds)).pending == multiset{}
    decreases |rounds|
  {
    hide AdmissibleRun, TrackAll, RoundEvents;
    if rounds == [] {
      BystandersStartNothing(t, 1, []);
    } else {
      var events := RoundEvents(t, rounds[0]);
      OneRound(t, rounds[0]);
      WaitingLoopIsSequential(TrackAll(t, events), rounds[1..]);
      TrackInTwo(t, 1, events, WaitingLoop(TrackAll(t, events), rounds[1..]));
    }
  }

  // ---- The state, from the history alone ----

  /** What makes the process give up connection `c` while it is in use: a failed attempt, a release, its close. */
  predicate GivesUp(e: Event, c: nat) {
    || e.ReleaseBegins? || e == Closes(c) || (e.AcquireAnswered? && e.reply.Thrown?)
  }

  ghost function StateAt(events: seq<Event>, k: nat): LockState
    requires k <= |events|
  {
    Final(NEW_LOCK, events[..k]).state
  }

  ghost predicate KeptSince(events: seq<Event>, k: int, c: nat) {
    forall j :: k < j < |events| && j >= 0 ==> !GivesUp(events[j], c)
  }

  /** The lock was granted at `k` on the connection then waited for, and has not been given up since. */
  ghost predicate GrantedAt(events: seq<Event>, k: int, c: nat) {
    && 0 <= k < |events| && events[k] == AcquireAnswered(c, Row(true)) && StateAt(events, k) == Connected(c)
    && KeptSince(events, k, c)
  }

  /** An attempt made connection `c` at `k`, and it has been neither given up nor granted the lock since. */
  ghost predicate OpenedAt(events: seq<Event>, k: int, c: nat) {
    && 0 <= k < |events| && events[k] == AcquireBegins && StateAt(events, k).Idle?
    && Final(NEW_LOCK, events[..k]).created == c && KeptSince(events, k, c)
    && forall j :: k < j < |events| ==> events[j] != AcquireAnswered(c, Row(true))
  }

  lemma LastEvent(events: seq<Event>)
    requires events != []
    ensures Final(NEW_LOCK, events) == After(Final(NEW_LOCK, events[..|events| - 1]), events[|events| - 1])
  {
    var front, e := events[..|events| - 1], events[|events| - 1];
    assert events == front + [e];
    FinalInTwo(NEW_LOCK, front, [e]);
    assert Final(Final(NEW_LOCK, front), [e]) == After(Final(NEW_LOCK, front), e) by { FinalOne(Final(NEW_LOCK, front), e); }
  }

  lemma FinalOne(l: Lock, e: Event)
    ensures Final(l, [e]) == After(l, e)
  {
    assert [e][1..] == [] && Final(After(l, e), []) == After(l, e);
  }

  lemma GrantedEarlier(events: seq<Event>, k: int, c: nat)
    requires events != [] && k < |events| - 1
    ensures GrantedAt(events, k, c) <==> GrantedAt(events[..|events| - 1], k, c) && !GivesUp(events[|events| - 1], c)
  {
    if 0 <= k { assert events[..|events| - 1][..k] == events[..k]; }
  }

  lemma OpenedEarlier(events: seq<Event>, k: int, c: nat)
    requires events != [] && k < |events| - 1
    ensures OpenedAt(events, k, c) <==>
      OpenedAt(events[..|events| - 1], k, c) && !GivesUp(events[|events| - 1], c)
      && events[|events| - 1] != AcquireAnswered(c, Row(true))
  {
    if 0 <= k { assert events[..|events| - 1][..k] == events[..k]; }
  }

  /** In every run: the lock is held on a connection if and only if it was granted on it while that connection
      was waited for and has not been given up since; and a connection is waited for if and only if an attempt
      made it out of nothing and it has been neither granted nor given up since. */
  lemma {:induction false} StateFollowsHistory(events: seq<Event>, c: nat)
    ensures var l := Final(NEW_LOCK, events);
      && (l.state.Held? && l.state.sql == c <==> exists k :: GrantedAt(events, k, c))
      && (l.state == Connected(c) <==> exists k :: OpenedAt(events, k, c))
  {
    hide After, Final;
    if events == [] {
      NothingYet();
    } else {
      var front, e, n := events[..|events| - 1], events[|events| - 1], |events| - 1;
      StateFollowsHistory(front, c);
      LastEvent(events);
      StateMoves(Final(NEW_LOCK, front), e, c);
      assert events[..n] == front;
      forall k | k < n ensures GrantedAt(events, k, c) <==> GrantedAt(front, k, c) && !GivesUp(e, c) { GrantedEarlier(events, k, c); }
      forall k | k < n
        ensures OpenedAt(events, k, c) <==> OpenedAt(front, k, c) && !GivesUp(e, c) && e != AcquireAnswered(c, Row(true))
      {
        OpenedEarlier(events, k, c);
      }
      assert GrantedAt(events, n, c) <==> e == AcquireAnswered(c, Row(true)) && Final(NEW_LOCK, front).state == Connected(c);
      assert OpenedAt(events, n, c) <==>
        e == AcquireBegins && Final(NEW_LOCK, front).state.Idle? && Final(NEW_LOCK, front).created == c;
      forall k | GrantedAt(events, k, c) || OpenedAt(events, k, c) || GrantedAt(front, k, c) || OpenedAt(front, k, c)
        ensures k <= n {}
    }
  }

  lemma NothingYet()
    ensures Final(NEW_LOCK, []) == NEW_LOCK
  {}

  lemma StateMoves(l: Lock, e: Event, c: nat)
    ensures var s := After(l, e).state;
      && (s.Held? && s.sql == c <==>
            || (l.state == Connected(c) && e == AcquireAnswered(c, Row(true)))
            || (l.state.Held? && l.state.sql == c && !GivesUp(e, c)))
      && (s == Connected(c) <==>
            || (l.state.Idle? && e == AcquireBegins && l.created == c)
            || (l.state == Connected(c) && !GivesUp(e, c) && e != AcquireAnswered(c, Row(true))))
  {}
}
