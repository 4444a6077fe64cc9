/** What one protocol operation does to the projected state, as one atomic step.
    (packages/indexer/src/processor/action-router.ts, packages/indexer/src/db/queries/asset-mutations.ts) */
module Ledger {
  import opened Prelude
  import opened StateRootHash
  import opened StateRootBuffers
  import opened StateRootFlush
  import opened TransferMatching

  datatype SaleState =
    | NotForSale
    | Listed
    | PendingSale(buyer: string, buyTxHash: string, expiresBlock: Option<nat>)

  /** An asset row: the hashed ownership fields, the sale columns, and all other columns. */
  datatype Asset = Asset(row: AssetStateRow, sale: SaleState, other: string)

  type Assets = map<string, Asset>

  /** The asset table, and every other projected table as a key-value store. */
  datatype Tables = Tables(assets: Assets, aux: map<string, string>)

  ghost predicate Keyed(assets: Assets) {
    forall id :: id in assets ==> assets[id].row.id == id
  }

  function Rows(assets: Assets): Table {
    map id | id in assets :: assets[id].row
  }

  // ---- Operations ----

  datatype Operation = Operation(
    blockNum: nat,
    txId: string,
    operationId: string,
    signer: string,
    action: string,
    data: string)

  /** One database or pool action of a handler. Only `Put` and `Remove` touch hashed fields. */
  datatype Effect =
    | Put(asset: Asset)
    | Remove(id: string)
    | SetSale(id: string, sale: SaleState)
    | SetAux(key: string, value: Option<string>)
    | Claim(payment: Sale)

  datatype Verdict = Succeeds | Rejects(reason: string) | Faults(error: string)

  /** What a handler does in a given view, and how it ends if every effect goes through. */
  datatype Program = Program(effects: seq<Effect>, verdict: Verdict)

  /** What a handler can read. `payment` is the fee transfer matched before it runs. */
  datatype View = View(tables: Tables, transfers: seq<Transfer>, consumed: set<nat>, payment: Option<nat>)

  /** A fixed or scaled fee states amount, recipient and memo; a split is verified by the handler.
      Scaling may reject a malformed count; a memo may be underivable from the payload. */
  datatype Requirement =
    | NoPayment
    | FixedPayment(units: Outcome<int>, recipient: string, memo: Option<string>)
    | SplitPayment

  /** Everything that is fixed by the protocol rather than by the run. */
  datatype Rules = Rules(
    hash: RowHash,
    handler: (Operation, View) -> Program,
    requirement: Operation -> Requirement,
    authMismatch: Operation -> Option<string>,
    nodeGate: (Operation, Tables) -> Verdict,
    accountRejection: Operation -> Option<string>,
    isBuy: Operation -> bool)

  predicate Enriched(rules: Rules, op: Operation) { !rules.requirement(op).NoPayment? }

  // ---- Running a handler ----

  /** Coins a successful operation was owed, by currency. */
  datatype Due = Due(currency: string, units: int)

  datatype Work = Work(tables: Tables, consumed: set<nat>, muts: seq<BufferedMutation>, dues: seq<Due>)

  function PutMutation(assets: Assets, a: Asset, blockNum: nat): BufferedMutation {
    if a.row.id in assets then Update(assets[a.row.id].row, a.row, blockNum) else Insert(a.row, blockNum)
  }

  function RunEffect(blockNum: nat, ts: seq<Transfer>, w: Work, e: Effect): Outcome<Work> {
    var assets := w.tables.assets;
    match e
    case Put(a) =>
      Ok(w.(tables := w.tables.(assets := assets[a.row.id := a]),
            muts := w.muts + [PutMutation(assets, a, blockNum)]))
    case Remove(id) =>
      if id !in assets then Ok(w)
      else Ok(w.(tables := w.tables.(assets := assets - {id}), muts := w.muts + [Delete(assets[id].row, blockNum)]))
    case SetSale(id, sale) =>
      if id !in assets then Ok(w)
      else Ok(w.(tables := w.tables.(assets := assets[id := assets[id].(sale := sale)])))
    case SetAux(key, value) =>
      Ok(w.(tables := w.tables.(aux := if value.Some? then w.tables.aux[key := value.value] else w.tables.aux - {key})))
    case Claim(p) =>
      match Plan(ts, w.consumed, p)
      case Ok(m) =>
        Ok(w.(consumed := w.consumed + SetOf(m.indices), dues := w.dues + [Due(p.currency, p.totalPrice)]))
      case Reject(r) => Reject(r)
      case Fault(f) => Fault(f)
  }

  function RunEffects(blockNum: nat, ts: seq<Transfer>, w: Work, effects: seq<Effect>): Outcome<Work>
    decreases |effects|
  {
    if effects == [] then Ok(w)
    else
      match RunEffect(blockNum, ts, w, effects[0])
      case Ok(w') => RunEffects(blockNum, ts, w', effects[1..])
      case Reject(r) => Reject(r)
      case Fault(f) => Fault(f)
  }

  function Concluded(r: Outcome<Work>, v: Verdict): Outcome<Work> {
    if !r.Ok? then r
    else match v case Succeeds => r case Rejects(reason) => Reject(reason) case Faults(e) => Fault(e)
  }

  /** Only a split action's handler verifies transfers; to any other the list is empty. */
  function HandlerTransfers(rules: Rules, op: Operation, ts: seq<Transfer>): seq<Transfer> {
    if rules.requirement(op).SplitPayment? then ts else []
  }

  function RunHandler(rules: Rules, ts: seq<Transfer>, t: Tables, consumed: set<nat>, payment: Option<nat>, op: Operation)
    : Outcome<Work>
  {
    var program := rules.handler(op, View(t, ts, consumed, payment));
    Concluded(
      RunEffects(op.blockNum, HandlerTransfers(rules, op, ts), Work(t, consumed, [], []), program.effects),
      program.verdict)
  }

  /** The fee match made before the handler runs. A memo that cannot be derived is an internal error. */
  function PreHandlerPayment(rules: Rules, ts: seq<Transfer>, consumed: set<nat>, op: Operation)
    : (r: Outcome<Option<nat>>)
    ensures r.Ok? ==> (r.value.Some? <==> rules.requirement(op).FixedPayment?)
  {
    match rules.requirement(op)
    case NoPayment => Ok(None)
    case SplitPayment => Ok(None)
    case FixedPayment(units, recipient, memo) =>
      if memo.None? then Fault("Cannot derive expected fee memo")
      else
        match units
        case Reject(r) => Reject(r)
        case Fault(f) => Fault(f)
        case Ok(required) =>
          match FixedFee(ts, consumed, required, recipient, memo.value)
          case Ok(i) => Ok(Some(i))
          case Reject(r) => Reject(r)
          case Fault(f) => Fault(f)
  }

  // ---- One operation ----

  /** The durable projection, without the state root that is derived from it. */
  datatype World = World(tables: Tables, confirmed: set<string>, invalid: set<string>, orphaned: set<string>)

  datatype Route = Applied | Rejected(reason: string) | Fatal(error: string)

  datatype Step = Step(world: World, consumed: set<nat>, muts: seq<BufferedMutation>, dues: seq<Due>, route: Route)

  function RecordInvalid(w: World, op: Operation): World {
    w.(invalid := w.invalid + {op.operationId})
  }

  function RecordRejection(rules: Rules, ts: seq<Transfer>, w: World, op: Operation): World {
    var w' := RecordInvalid(w, op);
    if rules.isBuy(op) && |ts| > 0 then w'.(orphaned := w'.orphaned + {op.operationId}) else w'
  }

  function RejectedStep(w: World, consumed: set<nat>, reason: string): Step {
    Step(w, consumed, [], [], Rejected(reason))
  }

  function FatalStep(w: World, consumed: set<nat>, error: string): Step {
    Step(w, consumed, [], [], Fatal(error))
  }

  function AppliedStep(w: World, op: Operation, work: Work, payment: Option<nat>, due: seq<Due>): Step {
    Step(
      w.(tables := work.tables, confirmed := w.confirmed + {op.operationId}),
      work.consumed + (if payment.Some? then {payment.value} else {}),
      work.muts, work.dues + due, Applied)
  }

  function FeeDue(rules: Rules, op: Operation): seq<Due> {
    match rules.requirement(op)
    case FixedPayment(Ok(units), _, _) => [Due("HBD", units)]
    case _ => []
  }

  /** The whole effect of one operation: all of it or, when it is rejected, nothing but the record. */
  function Perform(rules: Rules, ts: seq<Transfer>, w: World, consumed: set<nat>, op: Operation): Step {
    if op.operationId in w.confirmed then Step(w, consumed, [], [], Applied)
    else if rules.authMismatch(op).Some? then
      RejectedStep(RecordInvalid(w, op), consumed, rules.authMismatch(op).value)
    else
      match rules.nodeGate(op, w.tables)
      case Rejects(r) => RejectedStep(RecordRejection(rules, ts, w, op), consumed, r)
      case Faults(e) => FatalStep(w, consumed, e)
      case Succeeds =>
        match PreHandlerPayment(rules, ts, consumed, op)
        case Reject(r) => RejectedStep(RecordRejection(rules, ts, w, op), consumed, r)
        case Fault(e) => FatalStep(w, consumed, e)
        case Ok(payment) =>
          match RunHandler(rules, ts, w.tables, consumed, payment, op)
          case Reject(r) => RejectedStep(RecordRejection(rules, ts, w, op), consumed, r)
          case Fault(e) => FatalStep(w, consumed, e)
          case Ok(work) => AppliedStep(w, op, work, payment, FeeDue(rules, op))
  }

  /** A rejected operation leaves its record and nothing else; a fatal one, or one confirmed before,
      leaves nothing at all; only an applied one is confirmed. */
  lemma StepIsAllOrNothing(rules: Rules, ts: seq<Transfer>, w: World, consumed: set<nat>, op: Operation)
    ensures var s := Perform(rules, ts, w, consumed, op);
      && (s.route.Rejected? ==>
            && s.world.tables == w.tables && s.world.confirmed == w.confirmed
            && s.world.invalid == w.invalid + {op.operationId}
            && w.orphaned <= s.world.orphaned <= w.orphaned + {op.operationId}
            && (op.operationId in s.world.orphaned - w.orphaned ==> rules.isBuy(op) && ts != [])
            && s.consumed == consumed && s.muts == [] && s.dues == [])
      && (s.route.Fatal? || op.operationId in w.confirmed ==>
            s.world == w && s.consumed == consumed && s.muts == [] && s.dues == [])
      && (s.route.Applied? ==>
            && s.world.confirmed == w.confirmed + {op.operationId}
            && s.world.invalid == w.invalid && s.world.orphaned == w.orphaned)
  {
    hide RunHandler, PreHandlerPayment;
  }

  // ---- The queued mutations are exactly the row changes ----

  /** The mutations queued so far lead from `base` to the rows of the tables now. */
  ghost predicate Faithful(base: Assets, w: Work) {
    && Keyed(w.tables.assets)
    && ExactAll(Rows(base), w.muts)
    && WithMutations(Rows(base), w.muts) == Rows(w.tables.assets)
  }

  lemma AppendMutation(t: Table, ms: seq<BufferedMutation>, m: BufferedMutation)
    requires ExactAll(t, ms) && Exact(WithMutations(t, ms), m)
    ensures ExactAll(t, ms + [m]) && WithMutations(t, ms + [m]) == WithMutation(WithMutations(t, ms), m)
  {
    assert (ms + [m])[..|ms|] == ms;
  }

  lemma PutIsFaithful(assets: Assets, a: Asset, blockNum: nat)
    requires Keyed(assets)
    ensures Exact(Rows(assets), PutMutation(assets, a, blockNum))
    ensures WithMutation(Rows(assets), PutMutation(assets, a, blockNum)) == Rows(assets[a.row.id := a])
    ensures Keyed(assets[a.row.id := a])
  {}

  lemma EffectIsFaithful(base: Assets, blockNum: nat, ts: seq<Transfer>, w: Work, e: Effect)
    requires Faithful(base, w) && RunEffect(blockNum, ts, w, e).Ok?
    ensures Faithful(base, RunEffect(blockNum, ts, w, e).value)
  {
    var assets := w.tables.assets;
    match e {
      case Put(a) =>
        PutIsFaithful(assets, a, blockNum);
        AppendMutation(Rows(base), w.muts, PutMutation(assets, a, blockNum));
      case Remove(id) =>
        if id in assets {
          AppendMutation(Rows(base), w.muts, Delete(assets[id].row, blockNum));
          assert Rows(assets - {id}) == Rows(assets) - {id};
        }
      case SetSale(id, sale) =>
        if id in assets { assert Rows(assets[id := assets[id].(sale := sale)]) == Rows(assets); }
      case SetAux(_, _) =>
      case Claim(_) =>
    }
  }

  lemma {:induction false} EffectsAreFaithful(base: Assets, blockNum: nat, ts: seq<Transfer>, w: Work, effects: seq<Effect>)
    requires Faithful(base, w) && RunEffects(blockNum, ts, w, effects).Ok?
    ensures Faithful(base, RunEffects(blockNum, ts, w, effects).value)
    decreases |effects|
  {
    if effects != [] {
      EffectIsFaithful(base, blockNum, ts, w, effects[0]);
      EffectsAreFaithful(base, blockNum, ts, RunEffect(blockNum, ts, w, effects[0]).value, effects[1..]);
    }
  }

  /** Whatever a handler does, the mutations an operation leaves in the buffer are exactly the
      difference between the asset rows before and after it. */
  lemma MutationsMatchRows(rules: Rules, ts: seq<Transfer>, w: World, consumed: set<nat>, op: Operation)
    requires Keyed(w.tables.assets)
    ensures var s := Perform(rules, ts, w, consumed, op);
      && Keyed(s.world.tables.assets)
      && ExactAll(Rows(w.tables.assets), s.muts)
      && WithMutations(Rows(w.tables.assets), s.muts) == Rows(s.world.tables.assets)
  {
    var s := Perform(rules, ts, w, consumed, op);
    var assets := w.tables.assets;
    if s.route.Applied? && op.operationId !in w.confirmed {
      var payment := PreHandlerPayment(rules, ts, consumed, op).value;
      var program := rules.handler(op, View(w.tables, ts, consumed, payment));
      EffectsAreFaithful(assets, op.blockNum, HandlerTransfers(rules, op, ts),
                         Work(w.tables, consumed, [], []), program.effects);
    }
  }

  // ---- No transfer pays twice ----

  function DueIn(dues: seq<Due>, currency: string): int {
    if dues == [] then 0 else
      var n := |dues| - 1;
      DueIn(dues[..n], currency) + (if dues[n].currency == currency then dues[n].units else 0)
  }

  lemma {:induction false} DueInSum(a: seq<Due>, b: seq<Due>, c: string)
    ensures DueIn(a + b, c) == DueIn(a, c) + DueIn(b, c)
  {
    if b == [] { assert a + b == a; } else {
      assert (a + b)[..|a + b| - 1] == a + b[..|b| - 1];
      DueInSum(a, b[..|b| - 1], c);
    }
  }

  /** What has been claimed since `start` carries exactly what was owed for it. */
  ghost predicate Settled(ts: seq<Transfer>, start: set<nat>, w: Work, c: string) {
    start <= w.consumed && Carried(ts, c, w.consumed - start) == DueIn(w.dues, c)
  }

  lemma EffectSettles(blockNum: nat, ts: seq<Transfer>, start: set<nat>, w: Work, e: Effect, c: string)
    requires Settled(ts, start, w, c) && RunEffect(blockNum, ts, w, e).Ok?
    ensures Settled(ts, start, RunEffect(blockNum, ts, w, e).value, c)
  {
    if e.Claim? {
      var p := e.payment;
      var m := Plan(ts, w.consumed, p).value;
      MatchPaysExactlyThePrice(ts, w.consumed, p, c);
      var claimed := SetOf(m.indices);
      assert (w.consumed + claimed) - start == (w.consumed - start) + claimed;
      CarriedUnion(ts, c, w.consumed - start, claimed);
      assert (w.dues + [Due(p.currency, p.totalPrice)])[..|w.dues|] == w.dues;
    }
  }

  lemma {:induction false} EffectsSettle(
      blockNum: nat, ts: seq<Transfer>, start: set<nat>, w: Work, effects: seq<Effect>, c: string)
    requires Settled(ts, start, w, c) && RunEffects(blockNum, ts, w, effects).Ok?
    ensures Settled(ts, start, RunEffects(blockNum, ts, w, effects).value, c)
    decreases |effects|
  {
    if effects != [] {
      EffectSettles(blockNum, ts, start, w, effects[0], c);
      EffectsSettle(blockNum, ts, start, RunEffect(blockNum, ts, w, effects[0]).value, effects[1..], c);
    }
  }

  lemma {:induction false} NothingToClaim(blockNum: nat, w: Work, effects: seq<Effect>)
    requires RunEffects(blockNum, [], w, effects).Ok?
    ensures var r := RunEffects(blockNum, [], w, effects).value; r.consumed == w.consumed && r.dues == w.dues
    decreases |effects|
  {
    if effects != [] { NothingToClaim(blockNum, RunEffect(blockNum, [], w, effects[0]).value, effects[1..]); }
  }

  /** An operation only ever adds claims, and the transfers it claims carry exactly what it owed,
      in every currency. A rejected or fatal operation claims and owes nothing. */
  lemma OperationSettles(rules: Rules, ts: seq<Transfer>, w: World, consumed: set<nat>, op: Operation, c: string)
    ensures var s := Perform(rules, ts, w, consumed, op);
      && consumed <= s.consumed
      && Carried(ts, c, s.consumed - consumed) == DueIn(s.dues, c)
      && (!s.route.Applied? ==> s.consumed == consumed && s.dues == [])
  {
    var s := Perform(rules, ts, w, consumed, op);
    assert consumed - consumed == {};
    CarriedNothing(ts, c);
    if s.route.Applied? && op.operationId !in w.confirmed {
      var payment := PreHandlerPayment(rules, ts, consumed, op).value;
      var program := rules.handler(op, View(w.tables, ts, consumed, payment));
      var start := Work(w.tables, consumed, [], []);
      if rules.requirement(op).SplitPayment? {
        EffectsSettle(op.blockNum, ts, consumed, start, program.effects, c);
        var work := RunEffects(op.blockNum, ts, start, program.effects).value;
        assert work.consumed + {} == work.consumed && work.dues + [] == work.dues;
      } else {
        NothingToClaim(op.blockNum, start, program.effects);
        if payment.Some? { FeeSettles(rules, ts, consumed, op, c); }
      }
    }
  }

  lemma FeeSettles(rules: Rules, ts: seq<Transfer>, consumed: set<nat>, op: Operation, c: string)
    requires rules.requirement(op).FixedPayment? && PreHandlerPayment(rules, ts, consumed, op).Ok?
    ensures var i := PreHandlerPayment(rules, ts, consumed, op).value.value;
      && consumed + {i} - consumed == {i}
      && Carried(ts, c, {i}) == DueIn([] + FeeDue(rules, op), c)
  {
    var i := PreHandlerPayment(rules, ts, consumed, op).value.value;
    CarriedOne(ts, c, i);
    var dues := FeeDue(rules, op);
    assert [] + dues == dues && dues[..0] == [];
  }
}
