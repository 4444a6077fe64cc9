/** Which route an operation takes, from the protocol's rules and the transfers alone.
    (packages/indexer/src/processor/action-router.ts, packages/indexer/src/utils/fee-validator.ts) */
module Routes {
  import opened Prelude
  import opened StateRootHash
  import opened StateRootBuffers
  import opened TransferMatching
  import opened Ledger
  import SaleTransfers

  /** Why an operation does not go through: a protocol rejection, or an internal error. */
  datatype Stop = Refusal(reason: string) | Breakdown(error: string)

  // ---- The fee ----

  /** A free transfer with the fee's recipient and memo. */
  ghost predicate FeeCandidate(ts: seq<Transfer>, taken: set<nat>, recipient: string, memo: string, i: nat) {
    i < |ts| && i !in taken && ts[i].to == recipient && ts[i].memo == memo
  }

  ghost predicate OnlyFeeCandidate(ts: seq<Transfer>, taken: set<nat>, recipient: string, memo: string, i: nat) {
    FeeCandidate(ts, taken, recipient, memo, i) && forall j: nat :: FeeCandidate(ts, taken, recipient, memo, j) ==> j == i
  }

  /** The one candidate pays the required units in HBD. */
  ghost predicate FeePaid(ts: seq<Transfer>, taken: set<nat>, units: int, recipient: string, memo: string, i: nat) {
    OnlyFeeCandidate(ts, taken, recipient, memo, i) && ts[i].currency == "HBD" && ts[i].amount == units
  }

  ghost predicate FeeUnpaid(ts: seq<Transfer>, taken: set<nat>, units: int, recipient: string, memo: string, reason: string) {
    || (reason == "missing transfer" && forall i: nat :: !FeeCandidate(ts, taken, recipient, memo, i))
    || (reason == "ambiguous transfer" && exists i: nat, j: nat :: TwoFeeCandidates(ts, taken, recipient, memo, i, j))
    || (reason == "Protocol fees must be paid in HBD" && exists i: nat ::
          OnlyFeeCandidate(ts, taken, recipient, memo, i) && ts[i].currency != "HBD")
    || (reason == "Fee amount mismatch" && exists i: nat ::
          OnlyFeeCandidate(ts, taken, recipient, memo, i) && ts[i].currency == "HBD" && ts[i].amount != units)
  }

  ghost predicate TwoFeeCandidates(ts: seq<Transfer>, taken: set<nat>, recipient: string, memo: string, i: nat, j: nat) {
    i != j && FeeCandidate(ts, taken, recipient, memo, i) && FeeCandidate(ts, taken, recipient, memo, j)
  }

  /** The transfer that pays what is due before the handler runs, if anything is. */
  ghost predicate Covered(rules: Rules, ts: seq<Transfer>, taken: set<nat>, op: Operation, payment: Option<nat>) {
    match rules.requirement(op)
    case FixedPayment(units, recipient, memo) =>
      memo.Some? && units.Ok? && payment.Some? && FeePaid(ts, taken, units.value, recipient, memo.value, payment.value)
    case _ => payment == None
  }

  ghost predicate NotCovered(rules: Rules, ts: seq<Transfer>, taken: set<nat>, op: Operation, stop: Stop) {
    match rules.requirement(op)
    case FixedPayment(units, recipient, memo) =>
      if memo.None? then stop == Breakdown("Cannot derive expected fee memo")
      else if units.Reject? then stop == Refusal(units.reason)
      else if units.Fault? then stop == Breakdown(units.error)
      else stop.Refusal? && FeeUnpaid(ts, taken, units.value, recipient, memo.value, stop.reason)
    case _ => false
  }

  // ---- The handler's effects ----

  /** Only this asset differs. */
  ghost predicate OnlyAsset(t: Tables, t': Tables, id: string) {
    t'.aux == t.aux && forall k :: k != id ==> (k in t'.assets <==> k in t.assets) && (k in t.assets ==> t'.assets[k] == t.assets[k])
  }

  ghost predicate OnlyAux(t: Tables, t': Tables, key: string) {
    t'.assets == t.assets && forall k :: k != key ==> (k in t'.aux <==> k in t.aux) && (k in t.aux ==> t'.aux[k] == t.aux[k])
  }

  /** What carrying out one effect does: to the tables, to the claims, and to the queued mutations. */
  ghost predicate Done(block: nat, ts: seq<Transfer>, w: Work, e: Effect, w': Work) {
    match e
    case Put(a) =>
      && OnlyAsset(w.tables, w'.tables, a.row.id) && a.row.id in w'.tables.assets && w'.tables.assets[a.row.id] == a
      && w'.consumed == w.consumed && w'.dues == w.dues
      && w'.muts == w.muts + [if a.row.id in w.tables.assets then Update(w.tables.assets[a.row.id].row, a.row, block)
                              else Insert(a.row, block)]
    case Remove(id) =>
      && OnlyAsset(w.tables, w'.tables, id) && id !in w'.tables.assets
      && w'.consumed == w.consumed && w'.dues == w.dues
      && w'.muts == w.muts + if id in w.tables.assets then [Delete(w.tables.assets[id].row, block)] else []
    case SetSale(id, sale) =>
      && OnlyAsset(w.tables, w'.tables, id) && (id in w'.tables.assets <==> id in w.tables.assets)
      && (id in w.tables.assets ==> w'.tables.assets[id] == Asset(w.tables.assets[id].row, sale, w.tables.assets[id].other))
      && w'.consumed == w.consumed && w'.dues == w.dues && w'.muts == w.muts
    case SetAux(key, value) =>
      && OnlyAux(w.tables, w'.tables, key) && (key in w'.tables.aux <==> value.Some?)
      && (value.Some? ==> w'.tables.aux[key] == value.value)
      && w'.consumed == w.consumed && w'.dues == w.dues && w'.muts == w.muts
    case Claim(p) =>
      && w'.tables == w.tables && w'.muts == w.muts && w'.dues == w.dues + [Due(p.currency, p.totalPrice)]
      && Claims(ts, w.consumed, p, w'.consumed)
  }

  /** The transfers that pay the sale, and no others, are taken. */
  ghost predicate Claims(ts: seq<Transfer>, taken: set<nat>, p: Sale, taken': set<nat>) {
    exists s, seller: nat, royalty, fee :: SaleTransfers.Paid(ts, taken, p, s, seller, royalty, fee)
      && taken' == SaleTransfers.Taking(SaleTransfers.Taking(taken + {seller}, royalty), fee)
  }

  /** Only a claim can be refused, or run into a price that cannot be split. */
  ghost predicate Fails(ts: seq<Transfer>, w: Work, e: Effect, stop: Stop) {
    match e
    case Claim(p) =>
      (match stop
       case Refusal(reason) =>
         || (ts == [] && reason == "No transfers found. Payment split is required.")
         || (ts != [] && exists s :: SaleTransfers.SplitsInto(p, s) && SaleTransfers.Unpaid(ts, w.consumed, p, s, reason))
       case Breakdown(error) => ts != [] && p.Split() == Error(error))
    case _ => false
  }

  lemma EffectDone(block: nat, ts: seq<Transfer>, w: Work, e: Effect)
    ensures forall w' :: RunEffect(block, ts, w, e) == Ok(w') <==> Done(block, ts, w, e, w')
    ensures forall r :: RunEffect(block, ts, w, e) == Reject(r) <==> Fails(ts, w, e, Refusal(r))
    ensures forall r :: RunEffect(block, ts, w, e) == Fault(r) <==> Fails(ts, w, e, Breakdown(r))
  {
    match e {
      case Claim(p) => ClaimDone(block, ts, w, p);
      case SetAux(key, value) => AuxDone(block, ts, w, key, value);
      case _ => AssetDone(block, ts, w, e);
    }
  }

  lemma AssetDone(block: nat, ts: seq<Transfer>, w: Work, e: Effect)
    requires e.Put? || e.Remove? || e.SetSale?
    ensures RunEffect(block, ts, w, e).Ok?
    ensures forall w' :: RunEffect(block, ts, w, e) == Ok(w') <==> Done(block, ts, w, e, w')
  {
    var r := RunEffect(block, ts, w, e).value;
    match e {
      case Put(a) => assert Done(block, ts, w, e, r);
      case Remove(id) => assert Done(block, ts, w, e, r);
      case SetSale(id, sale) => assert Done(block, ts, w, e, r);
    }
    forall w' | Done(block, ts, w, e, w') ensures w' == r { DoneOnce(block, ts, w, e, r, w'); }
  }

  lemma DoneOnce(block: nat, ts: seq<Transfer>, w: Work, e: Effect, r: Work, w': Work)
    requires e.Put? || e.Remove? || e.SetSale?
    requires Done(block, ts, w, e, r) && Done(block, ts, w, e, w')
    ensures r == w'
  {
    assert w'.tables.assets.Keys == r.tables.assets.Keys;
    assert w'.tables.assets == r.tables.assets;
  }

  lemma AuxDone(block: nat, ts: seq<Transfer>, w: Work, key: string, value: Option<string>)
    ensures RunEffect(block, ts, w, SetAux(key, value)).Ok?
    ensures forall w' :: RunEffect(block, ts, w, SetAux(key, value)) == Ok(w') <==> Done(block, ts, w, SetAux(key, value), w')
  {
    var r := RunEffect(block, ts, w, SetAux(key, value)).value;
    forall w' | Done(block, ts, w, SetAux(key, value), w') ensures w' == r {
      assert w'.tables.aux == r.tables.aux;
    }
  }

  lemma ClaimDone(block: nat, ts: seq<Transfer>, w: Work, p: Sale)
    ensures forall w' :: RunEffect(block, ts, w, Claim(p)) == Ok(w') <==> Done(block, ts, w, Claim(p), w')
    ensures forall r :: RunEffect(block, ts, w, Claim(p)) == Reject(r) <==> Fails(ts, w, Claim(p), Refusal(r))
    ensures forall r :: RunEffect(block, ts, w, Claim(p)) == Fault(r) <==> Fails(ts, w, Claim(p), Breakdown(r))
  {
    hide SaleTransfers.Unpaid, SaleTransfers.SplitsInto, Claims, Plan, SetOf, Sale.Split;
    SaleTransfers.PlannedSplits(ts, w.consumed, p);
    forall reason ensures Plan(ts, w.consumed, p) == Reject(reason) <==> Fails(ts, w, Claim(p), Refusal(reason)) {
      SaleTransfers.RefusedIffUnpaid(ts, w.consumed, p, reason);
    }
    ClaimsIffPlanned(ts, w.consumed, p);
  }

  lemma ClaimsIffPlanned(ts: seq<Transfer>, taken: set<nat>, p: Sale)
    ensures forall taken' :: Claims(ts, taken, p, taken') <==>
      Plan(ts, taken, p).Ok? && taken' == taken + SetOf(Plan(ts, taken, p).value.indices)
  {
    hide SaleTransfers.Paid, Plan, SetOf;
    var plan := Plan(ts, taken, p);
    forall s, seller: nat, royalty, fee | SaleTransfers.Paid(ts, taken, p, s, seller, royalty, fee)
      ensures plan.Ok? && taken + SetOf(plan.value.indices)
        == SaleTransfers.Taking(SaleTransfers.Taking(taken + {seller}, royalty), fee)
    {
      SaleTransfers.PaidIsPlanned(ts, taken, p, s, seller, royalty, fee);
      ClaimedSet(taken, seller, royalty, fee);
    }
    if plan.Ok? {
      SaleTransfers.VerifiedIffPaid(ts, taken, p, plan.value);
      assert Claims(ts, taken, p, taken + SetOf(plan.value.indices));
    }
  }

  lemma ClaimedSet(taken: set<nat>, seller: nat, royalty: Option<nat>, fee: Option<nat>)
    ensures taken + SetOf([seller] + SaleTransfers.One(royalty) + SaleTransfers.One(fee))
         == SaleTransfers.Taking(SaleTransfers.Taking(taken + {seller}, royalty), fee)
  {
    assert SetOf([seller] + SaleTransfers.One(royalty) + SaleTransfers.One(fee))
        == {seller} + SetOf(SaleTransfers.One(royalty)) + SetOf(SaleTransfers.One(fee));
  }

  // ---- All effects of a program ----

  /** The states the effects lead through, the first one being where they start. */
  ghost predicate CarriedOut(block: nat, ts: seq<Transfer>, effects: seq<Effect>, states: seq<Work>) {
    && |states| == |effects| + 1
    && forall k :: 0 <= k < |effects| ==> Done(block, ts, states[k], effects[k], states[k + 1])
  }

  /** The effects before `k` are carried out, and effect `k` fails. */
  ghost predicate FailsAt(block: nat, ts: seq<Transfer>, effects: seq<Effect>, states: seq<Work>, k: nat, stop: Stop) {
    && k < |effects| && |states| == k + 1
    && (forall i :: 0 <= i < k ==> Done(block, ts, states[i], effects[i], states[i + 1]))
    && Fails(ts, states[k], effects[k], stop)
  }

  function StopOf<T>(r: Outcome<T>): Stop
    requires !r.Ok?
  {
    if r.Reject? then Refusal(r.reason) else Breakdown(r.error)
  }

  lemma OneMoreDone(block: nat, ts: seq<Transfer>, w: Work, effects: seq<Effect>, rest: seq<Work>)
    requires effects != [] && CarriedOut(block, ts, effects[1..], rest) && Done(block, ts, w, effects[0], rest[0])
    ensures CarriedOut(block, ts, effects, [w] + rest) && ([w] + rest)[0] == w
  {
    hide Done;
    var states := [w] + rest;
    forall k | 0 <= k < |effects| ensures Done(block, ts, states[k], effects[k], states[k + 1]) {
      if k > 0 { assert effects[k] == effects[1..][k - 1] && states[k] == rest[k - 1] && states[k + 1] == rest[k]; }
    }
  }

  lemma FailsOneLater(block: nat, ts: seq<Transfer>, w: Work, effects: seq<Effect>, rest: seq<Work>, k: nat, stop: Stop)
    requires effects != [] && FailsAt(block, ts, effects[1..], rest, k, stop) && Done(block, ts, w, effects[0], rest[0])
    ensures FailsAt(block, ts, effects, [w] + rest, k + 1, stop) && ([w] + rest)[0] == w
  {
    hide Done, Fails;
    var states := [w] + rest;
    forall i | 0 <= i < k + 1 ensures Done(block, ts, states[i], effects[i], states[i + 1]) {
      if i > 0 { assert effects[i] == effects[1..][i - 1] && states[i] == rest[i - 1] && states[i + 1] == rest[i]; }
    }
  }

  lemma {:induction false} EffectsRun(block: nat, ts: seq<Transfer>, w: Work, effects: seq<Effect>)
    ensures var r := RunEffects(block, ts, w, effects);
      if r.Ok? then exists states :: CarriedOut(block, ts, effects, states) && states[0] == w && states[|effects|] == r.value
      else exists states, k: nat :: FailsAt(block, ts, effects, states, k, StopOf(r)) && states[0] == w
    decreases |effects|
  {
    hide Done, Fails, RunEffect;
    if effects == [] {
      assert CarriedOut(block, ts, effects, [w]);
    } else {
      EffectDone(block, ts, w, effects[0]);
      var first, r := RunEffect(block, ts, w, effects[0]), RunEffects(block, ts, w, effects);
      if first.Ok? {
        EffectsRun(block, ts, first.value, effects[1..]);
        if r.Ok? {
          var rest :| CarriedOut(block, ts, effects[1..], rest) && rest[0] == first.value && rest[|effects| - 1] == r.value;
          OneMoreDone(block, ts, w, effects, rest);
          assert ([w] + rest)[|effects|] == r.value;
        } else {
          var rest, k: nat :| FailsAt(block, ts, effects[1..], rest, k, StopOf(r)) && rest[0] == first.value;
          FailsOneLater(block, ts, w, effects, rest, k, StopOf(r));
        }
      } else {
        assert FailsAt(block, ts, effects, [w], 0, StopOf(r)) && [w][0] == w;
      }
    }
  }

  /** The states are determined by where they start, and effects that are carried out do not fail. */
  lemma {:induction false} EffectsRunOnce(block: nat, ts: seq<Transfer>, w: Work, effects: seq<Effect>)
    ensures forall states :: CarriedOut(block, ts, effects, states) && states[0] == w ==>
      RunEffects(block, ts, w, effects) == Ok(states[|effects|])
    ensures forall states, k: nat, stop :: FailsAt(block, ts, effects, states, k, stop) && states[0] == w ==>
      !RunEffects(block, ts, w, effects).Ok? && StopOf(RunEffects(block, ts, w, effects)) == stop
    decreases |effects|
  {
    hide Done, Fails, RunEffect;
    if effects != [] {
      EffectDone(block, ts, w, effects[0]);
      var first := RunEffect(block, ts, w, effects[0]);
      if first.Ok? { EffectsRunOnce(block, ts, first.value, effects[1..]); }
      forall states | CarriedOut(block, ts, effects, states) && states[0] == w
        ensures RunEffects(block, ts, w, effects) == Ok(states[|effects|])
      {
        assert Done(block, ts, w, effects[0], states[1]);
        assert CarriedOut(block, ts, effects[1..], states[1..]) && states[1..][0] == first.value;
      }
      forall states, k: nat, stop | FailsAt(block, ts, effects, states, k, stop) && states[0] == w
        ensures !RunEffects(block, ts, w, effects).Ok? && StopOf(RunEffects(block, ts, w, effects)) == stop
      {
        if k > 0 {
          assert Done(block, ts, w, effects[0], states[1]);
          assert FailsAt(block, ts, effects[1..], states[1..], k - 1, stop) && states[1..][0] == first.value;
        } else if stop.Refusal? {
          assert Fails(ts, w, effects[0], Refusal(stop.reason));
        } else {
          assert Fails(ts, w, effects[0], Breakdown(stop.error));
        }
      }
    }
  }

  // ---- The checks, one after the other ----

  /** Only the handler of a split action is given transfers to claim. */
  function Claimable(rules: Rules, op: Operation, ts: seq<Transfer>): seq<Transfer> {
    if rules.requirement(op).SplitPayment? then ts else []
  }

  /** The handler's effects go through, by way of these states. */
  ghost predicate Handled(rules: Rules, ts: seq<Transfer>, t: Tables, taken: set<nat>, op: Operation,
                          payment: Option<nat>, states: seq<Work>)
  {
    && CarriedOut(op.blockNum, Claimable(rules, op, ts), rules.handler(op, View(t, ts, taken, payment)).effects, states)
    && states[0] == Work(t, taken, [], [])
  }

  /** One of the handler's effects fails, or all go through and the handler itself refuses or breaks down. */
  ghost predicate HandlerStops(rules: Rules, ts: seq<Transfer>, t: Tables, taken: set<nat>, op: Operation,
                               payment: Option<nat>, stop: Stop)
  {
    var program := rules.handler(op, View(t, ts, taken, payment));
    || (exists states, k: nat ::
          FailsAt(op.blockNum, Claimable(rules, op, ts), program.effects, states, k, stop) && states[0] == Work(t, taken, [], []))
    || ((exists states :: Handled(rules, ts, t, taken, op, payment, states))
        && match program.verdict
           case Succeeds => false
           case Rejects(reason) => stop == Refusal(reason)
           case Faults(error) => stop == Breakdown(error))
  }

  /** The first check that the operation does not pass: authority, node gate, fee, handler. */
  ghost predicate StopsWith(rules: Rules, ts: seq<Transfer>, w: World, taken: set<nat>, op: Operation, stop: Stop) {
    if rules.authMismatch(op).Some? then stop == Refusal(rules.authMismatch(op).value)
    else
      match rules.nodeGate(op, w.tables)
      case Rejects(reason) => stop == Refusal(reason)
      case Faults(error) => stop == Breakdown(error)
      case Succeeds =>
        || NotCovered(rules, ts, taken, op, stop)
        || exists payment :: Covered(rules, ts, taken, op, payment)
             && HandlerStops(rules, ts, w.tables, taken, op, payment, stop)
  }

  /** It passes them all. */
  ghost predicate GoesThrough(rules: Rules, ts: seq<Transfer>, w: World, taken: set<nat>, op: Operation,
                              payment: Option<nat>, states: seq<Work>)
  {
    && rules.authMismatch(op).None? && rules.nodeGate(op, w.tables).Succeeds?
    && Covered(rules, ts, taken, op, payment)
    && Handled(rules, ts, w.tables, taken, op, payment, states)
    && rules.handler(op, View(w.tables, ts, taken, payment)).verdict.Succeeds?
  }

  lemma FeeDecided(rules: Rules, ts: seq<Transfer>, taken: set<nat>, op: Operation)
    ensures forall payment :: PreHandlerPayment(rules, ts, taken, op) == Ok(payment) <==> Covered(rules, ts, taken, op, payment)
    ensures forall stop :: (!PreHandlerPayment(rules, ts, taken, op).Ok? && StopOf(PreHandlerPayment(rules, ts, taken, op)) == stop)
                           <==> NotCovered(rules, ts, taken, op, stop)
  {
    hide FeePaid, FeeUnpaid, FixedFee;
    match rules.requirement(op)
    case FixedPayment(units, recipient, memo) =>
      if memo.Some? && units.Ok? { FixedFeeDecided(ts, taken, units.value, recipient, memo.value); }
    case _ =>
  }

  lemma FixedFeeDecided(ts: seq<Transfer>, taken: set<nat>, units: int, recipient: string, memo: string)
    ensures !FixedFee(ts, taken, units, recipient, memo).Fault?
    ensures forall i: nat :: FixedFee(ts, taken, units, recipient, memo) == Ok(i) <==> FeePaid(ts, taken, units, recipient, memo, i)
    ensures forall e :: FixedFee(ts, taken, units, recipient, memo) == Reject(e) <==> FeeUnpaid(ts, taken, units, recipient, memo, e)
  {
    var leg := Leg(None, recipient, None, None, memo);
    var c := Candidates(ts, taken, leg, |ts|);
    assert forall i: nat :: Candidate(ts, taken, leg, i) <==> FeeCandidate(ts, taken, recipient, memo, i);
    assert forall i: nat :: i in c <==> FeeCandidate(ts, taken, recipient, memo, i);
    if |c| == 0 {
    } else if |c| == 1 {
      assert c[0] in c && forall j :: j in c ==> j == c[0];
      assert OnlyFeeCandidate(ts, taken, recipient, memo, c[0]);
    } else {
      assert c[0] in c && c[1] in c && c[0] != c[1];
      assert TwoFeeCandidates(ts, taken, recipient, memo, c[0], c[1]);
    }
  }

  lemma HandlerDecided(rules: Rules, ts: seq<Transfer>, t: Tables, taken: set<nat>, op: Operation, payment: Option<nat>)
    ensures var r, verdict := RunHandler(rules, ts, t, taken, payment, op), rules.handler(op, View(t, ts, taken, payment)).verdict;
      && (r.Ok? <==> verdict.Succeeds? && exists states :: Handled(rules, ts, t, taken, op, payment, states))
      && (r.Ok? ==> forall states :: Handled(rules, ts, t, taken, op, payment, states) ==> r.value == states[|states| - 1])
      && (forall stop :: (!r.Ok? && StopOf(r) == stop) <==> HandlerStops(rules, ts, t, taken, op, payment, stop))
  {
    hide RunEffects, CarriedOut, FailsAt;
    var effects := rules.handler(op, View(t, ts, taken, payment)).effects;
    var start, ts' := Work(t, taken, [], []), Claimable(rules, op, ts);
    var ran := RunEffects(op.blockNum, ts', start, effects);
    EffectsRun(op.blockNum, ts', start, effects);
    EffectsRunOnce(op.blockNum, ts', start, effects);
    StatesLength(op.blockNum, ts', effects);
    if ran.Ok? {
      var states :| CarriedOut(op.blockNum, ts', effects, states) && states[0] == start && states[|effects|] == ran.value;
      assert Handled(rules, ts, t, taken, op, payment, states);
    }
  }

  lemma StatesLength(block: nat, ts: seq<Transfer>, effects: seq<Effect>)
    ensures forall states :: CarriedOut(block, ts, effects, states) ==> |states| == |effects| + 1
    ensures forall states, k: nat, stop :: FailsAt(block, ts, effects, states, k, stop) ==> |states| == k + 1
  {}

  // ---- Main results ----

  /** The route of an operation that has not been confirmed before: applied if and only if it passes every
      check and every effect of its handler can be carried out; otherwise rejected or fatal by the first
      check that it does not pass, with that check's own reason. */
  lemma RouteIsDecided(rules: Rules, ts: seq<Transfer>, w: World, taken: set<nat>, op: Operation)
    requires op.operationId !in w.confirmed
    ensures var route := Perform(rules, ts, w, taken, op).route;
      && (route.Applied? <==> exists payment, states :: GoesThrough(rules, ts, w, taken, op, payment, states))
      && (forall reason :: route == Rejected(reason) <==> StopsWith(rules, ts, w, taken, op, Refusal(reason)))
      && (forall error :: route == Fatal(error) <==> StopsWith(rules, ts, w, taken, op, Breakdown(error)))
  {
    hide PreHandlerPayment, RunHandler, Covered, NotCovered, Handled, HandlerStops;
    FeeDecided(rules, ts, taken, op);
    var fee := PreHandlerPayment(rules, ts, taken, op);
    if rules.authMismatch(op).None? && rules.nodeGate(op, w.tables).Succeeds? && fee.Ok? {
      HandlerDecided(rules, ts, w.tables, taken, op, fee.value);
      var r := RunHandler(rules, ts, w.tables, taken, fee.value, op);
      if r.Ok? {
        var states :| Handled(rules, ts, w.tables, taken, op, fee.value, states);
        assert GoesThrough(rules, ts, w, taken, op, fee.value, states);
      }
    }
  }

  function FeeOwed(rules: Rules, op: Operation): seq<Due> {
    if rules.requirement(op).FixedPayment? && rules.requirement(op).units.Ok?
    then [Due("HBD", rules.requirement(op).units.value)] else []
  }

  /** What an applied operation leaves: the last state of its handler, the fee taken and owed, and its
      confirmation; one that was confirmed before leaves everything as it was. */
  lemma AppliedLeaves(rules: Rules, ts: seq<Transfer>, w: World, taken: set<nat>, op: Operation,
                      payment: Option<nat>, states: seq<Work>)
    requires op.operationId !in w.confirmed && GoesThrough(rules, ts, w, taken, op, payment, states)
    ensures |states| > 0
    ensures var s, last := Perform(rules, ts, w, taken, op), states[|states| - 1];
      && s.world == World(last.tables, w.confirmed + {op.operationId}, w.invalid, w.orphaned)
      && s.consumed == SaleTransfers.Taking(last.consumed, payment)
      && s.muts == last.muts && s.dues == last.dues + FeeOwed(rules, op)
  {
    hide PreHandlerPayment, RunHandler, Covered, CarriedOut;
    FeeDecided(rules, ts, taken, op);
    HandlerDecided(rules, ts, w.tables, taken, op, payment);
    StatesLength(op.blockNum, Claimable(rules, op, ts), rules.handler(op, View(w.tables, ts, taken, payment)).effects);
  }

  /** A rejection behind the authority check is flagged as an orphaned purchase if and only if it is a
      purchase whose transaction carries transfers; one by the authority check never is. */
  lemma OrphanedIffPaidPurchase(rules: Rules, ts: seq<Transfer>, w: World, taken: set<nat>, op: Operation)
    requires op.operationId !in w.confirmed && Perform(rules, ts, w, taken, op).route.Rejected?
    ensures Perform(rules, ts, w, taken, op).world.orphaned == w.orphaned +
      if rules.authMismatch(op).None? && rules.isBuy(op) && ts != [] then {op.operationId} else {}
  {
    hide PreHandlerPayment, RunHandler;
  }
}
