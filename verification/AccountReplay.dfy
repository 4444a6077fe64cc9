/** Account decisions inside the replay: when the accounts are looked up makes no difference to it.
    (packages/indexer/src/processor/account-validation.ts, packages/indexer/src/scanner/sync-engine.ts) */
module AccountReplay {
  import opened Prelude
  import opened Calendar
  import opened StateRootHash
  import opened StateRootFlush
  import opened TransferMatching
  import opened Ledger
  import opened Replay
  import opened SyncEngines
  import ReplayFacts
  import Accounts = AccountValidation

  /** What account validation reads of an operation. */
  type Description = Operation -> Accounts.Op

  /** When the accounts of each operation are looked up. */
  type Lookups = Operation -> Fields

  /** Operations are refused by what a lookup in the account history shows. */
  function RefusedBy(name: Accounts.NameRule, describe: Description, history: Accounts.History, lookups: Lookups)
    : Operation -> Option<string>
  {
    op =>
      match Accounts.DecisionAt(name, describe(op), history, lookups(op))
      case Refused(reason) => Some(reason)
      case _ => None
  }

  /** The protocol with its account decisions taken from the history at these times. */
  function LookedUp(rules: Rules, name: Accounts.NameRule, describe: Description, history: Accounts.History, lookups: Lookups)
    : Rules
  {
    rules.(accountRejection := RefusedBy(name, describe, history, lookups))
  }

  /** No lookup is made before the operation it is for: the operation is already on the chain. */
  ghost predicate NeverEarly(describe: Description, lookups: Lookups) {
    forall op :: Accounts.ProperOp(describe(op)) && lookups(op).Valid() && !FieldsBefore(lookups(op), describe(op).at)
  }

  /** The same protocol, and the same operations refused for their accounts, though perhaps with other reasons. */
  ghost predicate RefuseAlike(a: Rules, b: Rules) {
    && a == b.(accountRejection := a.accountRejection)
    && forall op :: a.accountRejection(op).Some? <==> b.accountRejection(op).Some?
  }

  lemma LookupsRefuseAlike(rules: Rules, name: Accounts.NameRule, describe: Description, history: Accounts.History,
                           now: Lookups, later: Lookups)
    requires Accounts.ProperHistory(history) && NeverEarly(describe, now) && NeverEarly(describe, later)
    ensures RefuseAlike(LookedUp(rules, name, describe, history, now), LookedUp(rules, name, describe, history, later))
  {
    hide Accounts.DecisionAt, FieldsBefore;
    var a, b := LookedUp(rules, name, describe, history, now), LookedUp(rules, name, describe, history, later);
    forall op ensures a.accountRejection(op).Some? <==> b.accountRejection(op).Some? {
      Accounts.OutcomeIgnoresLookupTime(name, describe(op), history, now(op), later(op));
    }
  }

  // ---- Replay goes by whether an operation is refused, not by why ----

  lemma PerformAlike(a: Rules, b: Rules, ts: seq<Transfer>, w: World, consumed: set<nat>, op: Operation)
    requires RefuseAlike(a, b)
    ensures Perform(a, ts, w, consumed, op) == Perform(b, ts, w, consumed, op)
  {
    hide RunEffects, AppliedStep;
  }

  lemma PassOpAlike(a: Rules, b: Rules, chain: Chain, s: Pass, op: Operation)
    requires RefuseAlike(a, b)
    ensures PassOp(a, chain, s, op) == PassOp(b, chain, s, op)
  {
    hide Perform, Sweep;
    var p := Prepared(s, op.blockNum);
    PerformAlike(a, b, PoolTransfers(a, chain, op), p.world, Consumed(a, p.pools, op), op);
  }

  lemma {:induction false} PassOpsAlike(a: Rules, b: Rules, chain: Chain, s: Pass, ops: seq<Operation>)
    requires RefuseAlike(a, b)
    ensures PassOps(a, chain, s, ops) == PassOps(b, chain, s, ops)
  {
    hide RefuseAlike, PassOp;
    if ops != [] {
      var front := ops[..|ops| - 1];
      PassOpsAlike(a, b, chain, s, front);
      var s' := PassOps(a, chain, s, front);
      if s'.Some? { PassOpAlike(a, b, chain, s'.value, ops[|ops| - 1]); }
    }
  }

  lemma {:induction false} PassRangesAlike(a: Rules, b: Rules, chain: Chain, s: Pass, ranges: seq<Range>)
    requires RefuseAlike(a, b)
    ensures PassRanges(a, chain, s, ranges) == PassRanges(b, chain, s, ranges)
  {
    hide RefuseAlike, PassOps, RangeOps, RangeRejected;
    if ranges != [] {
      PassRangesAlike(a, b, chain, s, ranges[..|ranges| - 1]);
      var s', r := PassRanges(a, chain, s, ranges[..|ranges| - 1]), ranges[|ranges| - 1];
      if s'.Some? {
        var rejected := Ids(RangeRejected(chain, r.from, r.to + 1));
        PassOpsAlike(a, b, chain,
                     s'.value.(world := s'.value.world.(invalid := s'.value.world.invalid + rejected), pools := map[]),
                     RangeOps(chain, r.from, r.to + 1));
      }
    }
  }

  lemma {:induction false} ReplayedAlike(a: Rules, b: Rules, chain: Chain, genesis: nat, c: int)
    requires RefuseAlike(a, b)
    ensures Replayed(a, chain, genesis, c) == Replayed(b, chain, genesis, c)
    decreases c - genesis
  {
    hide RefuseAlike, PassOps;
    if c >= genesis {
      ReplayedAlike(a, b, chain, genesis, c - 1);
      var w := Replayed(a, chain, genesis, c - 1);
      if w.Some? { PassOpsAlike(a, b, chain, Pass(w.value, map[], Some(c), []), chain.block(c).ops); }
    }
  }

  lemma ConsistentAlike(a: Rules, b: Rules, chain: Chain, genesis: nat, db: Db)
    requires RefuseAlike(a, b)
    ensures Consistent(a, chain, genesis, db) <==> Consistent(b, chain, genesis, db)
  {
    hide Replayed, TableRoot;
    forall c ensures Replayed(a, chain, genesis, c) == Replayed(b, chain, genesis, c) {
      ReplayedAlike(a, b, chain, genesis, c);
    }
  }

  // ---- Main results ----

  /** Whenever the accounts of each operation are looked up, as long as it is not before the operation
      itself: replaying the chain leaves the same state, every batch does the same, and the same databases
      count as agreeing with the replay. */
  lemma LookupTimesDoNotMatter(
      rules: Rules, name: Accounts.NameRule, describe: Description, history: Accounts.History,
      now: Lookups, later: Lookups, chain: Chain, genesis: nat)
    requires Accounts.ProperHistory(history) && NeverEarly(describe, now) && NeverEarly(describe, later)
    ensures var a, b := LookedUp(rules, name, describe, history, now), LookedUp(rules, name, describe, history, later);
      && (forall c :: Replayed(a, chain, genesis, c) == Replayed(b, chain, genesis, c))
      && (forall w, ranges :: ranges != [] ==> Batch(a, chain, w, ranges) == Batch(b, chain, w, ranges))
      && (forall db :: Consistent(a, chain, genesis, db) <==> Consistent(b, chain, genesis, db))
  {
    hide Replayed, PassRanges, Consistent, LookedUp, RefuseAlike;
    var a, b := LookedUp(rules, name, describe, history, now), LookedUp(rules, name, describe, history, later);
    LookupsRefuseAlike(rules, name, describe, history, now, later);
    forall c ensures Replayed(a, chain, genesis, c) == Replayed(b, chain, genesis, c) {
      ReplayedAlike(a, b, chain, genesis, c);
    }
    forall w, ranges | ranges != [] ensures Batch(a, chain, w, ranges) == Batch(b, chain, w, ranges) {
      PassRangesAlike(a, b, chain, Start(w), ranges);
    }
    forall db ensures Consistent(a, chain, genesis, db) <==> Consistent(b, chain, genesis, db) {
      ConsistentAlike(a, b, chain, genesis, db);
    }
  }

  /** Two indexers that looked the accounts up at different times still agree: equal cursors, equal state. */
  lemma LateIndexersAgree(
      rules: Rules, name: Accounts.NameRule, describe: Description, history: Accounts.History,
      now: Lookups, later: Lookups, chain: Chain, genesis: nat, x: Db, y: Db)
    requires Accounts.ProperHistory(history) && NeverEarly(describe, now) && NeverEarly(describe, later)
    requires Consistent(LookedUp(rules, name, describe, history, now), chain, genesis, x)
    requires Consistent(LookedUp(rules, name, describe, history, later), chain, genesis, y)
    ensures x.lastBlock == y.lastBlock ==>
      x.world == y.world && x.meta.stateRoot == y.meta.stateRoot && x.meta.assetCount == y.meta.assetCount
  {
    hide Consistent, LookedUp, Replayed, Batch, NeverEarly;
    LookupTimesDoNotMatter(rules, name, describe, history, now, later, chain, genesis);
    ReplayFacts.IndexersAgree(LookedUp(rules, name, describe, history, now), chain, genesis, x, y);
  }
}
