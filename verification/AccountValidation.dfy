/** Deciding, before a batch is written, whether the accounts its operations name existed in time.
    (packages/indexer/src/processor/account-validation.ts) */
module AccountValidation {
  import opened Prelude
  import opened Calendar
  import opened HiveTimestamps

  const BURN_RECIPIENT := "null"

  datatype Action = Transfer | Mint | BulkDistribute | TransferFrom | Lend | Other

  /** The account field of the payload: missing, of another type, or text. */
  datatype Field = Missing | NotText | Text(account: string)

  datatype Op = Op(
    operationId: string, action: Action, signer: string, at: Fields, field: Field, authMismatch: Option<string>)

  datatype Target = NotRequired | Lookup(account: string, operationAt: string) | Rejected(reason: string)

  datatype Decision = DecidedNotRequired | Accepted(account: string) | Refused(reason: string)

  /** Username syntax rules; what they are does not matter here. */
  type NameRule = string -> Option<string>

  function AccountTarget(rule: NameRule, op: Op, allowSigner: bool, allowBurn: bool): Target {
    if !op.field.Text? || op.field.account == "" then Rejected("Missing or invalid account field")
    else
      var name := op.field.account;
      if name == BURN_RECIPIENT then (if allowBurn then NotRequired else Rejected("Delegated burn is not allowed"))
      else if rule(name).Some? then Rejected(rule(name).value)
      else if allowSigner && name == op.signer then NotRequired
      else Lookup(name, Iso(op.at))
  }

  function TargetForOperation(rule: NameRule, op: Op): Target {
    if op.authMismatch.Some? then Rejected(op.authMismatch.value)
    else
      match op.action
      case Transfer =>
        var target := AccountTarget(rule, op, false, true);
        if target.Lookup? && target.account == op.signer then Rejected("Cannot transfer Asset to yourself") else target
      case Mint => if op.field.Missing? then NotRequired else AccountTarget(rule, op, true, true)
      case BulkDistribute => if op.field.Missing? then NotRequired else AccountTarget(rule, op, true, true)
      case TransferFrom => AccountTarget(rule, op, true, false)
      case Lend => AccountTarget(rule, op, true, true)
      case Other => NotRequired
  }

  /** What a lookup returned: the creation time of every requested account that exists by then. */
  type Observation = map<string, string>

  function Decide(target: Target, seen: Observation): Decision {
    match target
    case NotRequired => DecidedNotRequired
    case Rejected(reason) => Refused(reason)
    case Lookup(account, operationAt) =>
      if account !in seen then Refused("Hive account does not exist")
      else if !AccountCreatedBeforeOperation(seen[account], operationAt) then
        Refused("Hive account did not exist before operation timestamp")
      else Accepted(account)
  }

  datatype ValidationPlan = ValidationPlan(targets: map<string, Target>, accounts: set<string>)

  ghost predicate PlansExactly(rule: NameRule, ops: seq<Op>, plan: ValidationPlan) {
    && (forall id :: id in plan.targets ==> exists i :: 0 <= i < |ops| && ops[i].operationId == id)
    && (forall i :: 0 <= i < |ops| ==>
          ops[i].operationId in plan.targets && plan.targets[ops[i].operationId] == TargetForOperation(rule, ops[i]))
    && (forall a :: a in plan.accounts <==>
          exists i :: 0 <= i < |ops| && TargetForOperation(rule, ops[i]).Lookup? && TargetForOperation(rule, ops[i]).account == a)
  }

  ghost predicate DistinctOperations(ops: seq<Op>) {
    forall i, j :: 0 <= i < j < |ops| ==> ops[i].operationId != ops[j].operationId
  }

  method BuildAccountValidationPlan(rule: NameRule, ops: seq<Op>) returns (r: Result<ValidationPlan>)
    ensures r.Done? <==> DistinctOperations(ops)
    ensures r.Done? ==> PlansExactly(rule, ops, r.value)
  {
    hide TargetForOperation;
    var targets: map<string, Target> := map[];
    var accounts: set<string> := {};
    for i := 0 to |ops|
      invariant DistinctOperations(ops[..i]) && PlansExactly(rule, ops[..i], ValidationPlan(targets, accounts))
    {
      var op := ops[i];
      if op.operationId in targets {
        var k :| 0 <= k < i && ops[..i][k].operationId == op.operationId;
        assert ops[k].operationId == ops[i].operationId;
        return Error("Duplicate operationId in account validation plan");
      }
      var target := TargetForOperation(rule, op);
      PlanOneMore(rule, ops[..i], op, ValidationPlan(targets, accounts));
      assert ops[..i + 1] == ops[..i] + [op];
      targets := targets[op.operationId := target];
      if target.Lookup? { accounts := accounts + {target.account}; }
    }
    assert ops[..|ops|] == ops;
    return Done(ValidationPlan(targets, accounts));
  }

  lemma PlanOneMore(rule: NameRule, ops: seq<Op>, op: Op, plan: ValidationPlan)
    requires DistinctOperations(ops) && PlansExactly(rule, ops, plan) && op.operationId !in plan.targets
    ensures DistinctOperations(ops + [op])
    ensures var target := TargetForOperation(rule, op);
      PlansExactly(rule, ops + [op],
                   ValidationPlan(plan.targets[op.operationId := target],
                                  if target.Lookup? then plan.accounts + {target.account} else plan.accounts))
  {
    hide TargetForOperation;
    var more := ops + [op];
    var target := TargetForOperation(rule, op);
    var plan' := ValidationPlan(plan.targets[op.operationId := target],
                                if target.Lookup? then plan.accounts + {target.account} else plan.accounts);
    assert more[|ops|] == op;
    forall id | id in plan'.targets ensures exists i :: 0 <= i < |more| && more[i].operationId == id {
      if id != op.operationId {
        var i :| 0 <= i < |ops| && ops[i].operationId == id;
        assert more[i].operationId == id;
      }
    }
    forall a | a in plan'.accounts
      ensures exists i :: 0 <= i < |more| && TargetForOperation(rule, more[i]).Lookup? && TargetForOperation(rule, more[i]).account == a
    {
      if a in plan.accounts {
        var i :| 0 <= i < |ops| && TargetForOperation(rule, ops[i]).Lookup? && TargetForOperation(rule, ops[i]).account == a;
        assert more[i] == ops[i];
      }
    }
  }

  /** The Hive account history: when each account was created. */
  type History = map<string, Fields>

  ghost predicate ProperHistory(history: History) {
    forall a :: a in history ==> history[a].Valid() && history[a].date.year < 10_000
  }

  /** A lookup at time `now` sees exactly the requested accounts that exist by then. */
  function Seen(history: History, accounts: set<string>, now: Fields): Observation {
    map a | a in accounts && a in history && !FieldsBefore(now, history[a]) :: Iso(history[a])
  }

  /** Decisions for all operations of a batch from one lookup; a repeated operation id is an error. */
  method PrepareAccountValidation(rule: NameRule, ops: seq<Op>, history: History, now: Fields)
    returns (r: Result<map<string, Decision>>)
    ensures r.Done? <==> DistinctOperations(ops)
    ensures r.Done? ==> forall i :: 0 <= i < |ops| ==>
      && ops[i].operationId in r.value
      && r.value[ops[i].operationId] == DecisionAt(rule, ops[i], history, now)
  {
    hide TargetForOperation, Iso, FieldsBefore;
    var planned := BuildAccountValidationPlan(rule, ops);
    if planned.Error? { return Error(planned.message); }
    var plan := planned.value;
    var seen := if |plan.accounts| == 0 then map[] else Seen(history, plan.accounts, now);
    var decisions := map id | id in plan.targets :: Decide(plan.targets[id], seen);
    forall i | 0 <= i < |ops|
      ensures ops[i].operationId in decisions && decisions[ops[i].operationId] == DecisionAt(rule, ops[i], history, now)
    {
      var target := TargetForOperation(rule, ops[i]);
      if target.Lookup? { assert target.account in plan.accounts; }
    }
    return Done(decisions);
  }

  /** The decision on one operation, had it been looked up alone. */
  function DecisionAt(rule: NameRule, op: Op, history: History, now: Fields): Decision {
    var target := TargetForOperation(rule, op);
    Decide(target, if target.Lookup? then Seen(history, {target.account}, now) else map[])
  }

  ghost predicate ProperOp(op: Op) { op.at.Valid() && op.at.date.year < 10_000 }

  /** What acceptance comes down to: the account was created before the operation's own time. */
  lemma AcceptedIffCreatedBefore(rule: NameRule, op: Op, history: History, now: Fields)
    requires ProperHistory(history) && ProperOp(op) && now.Valid() && !FieldsBefore(now, op.at)
    ensures var target := TargetForOperation(rule, op);
      target.Lookup? ==>
        (DecisionAt(rule, op, history, now).Accepted? <==>
           target.account in history && FieldsBefore(history[target.account], op.at))
  {
    hide Iso, Fields.Valid;
    var target := TargetForOperation(rule, op);
    if target.Lookup? && target.account in history {
      var created := history[target.account];
      LookedUpText(rule, op);
      IsoOrder(created, op.at);
      if FieldsBefore(created, op.at) { BeforeIsOrder(created, op.at, now); }
    }
  }

  lemma LookedUpText(rule: NameRule, op: Op)
    ensures TargetForOperation(rule, op).Lookup? ==> TargetForOperation(rule, op).operationAt == Iso(op.at)
  {}

  lemma BeforeIsOrder(created: Fields, at: Fields, now: Fields)
    requires created.Valid() && at.Valid() && now.Valid()
    requires FieldsBefore(created, at) && !FieldsBefore(now, at)
    ensures !FieldsBefore(now, created)
  {
    MomentsFollowFields(created, at);
    MomentsFollowFields(now, at);
    MomentsFollowFields(now, created);
  }

  /** Looked up at any two times after the operation, it is accepted both times or neither. */
  lemma OutcomeIgnoresLookupTime(rule: NameRule, op: Op, history: History, now: Fields, later: Fields)
    requires ProperHistory(history) && ProperOp(op)
    requires now.Valid() && !FieldsBefore(now, op.at) && later.Valid() && !FieldsBefore(later, op.at)
    ensures var d, e := DecisionAt(rule, op, history, now), DecisionAt(rule, op, history, later);
      (d.Accepted? <==> e.Accepted?) && (d.Refused? <==> e.Refused?) && (d.Accepted? ==> d == e)
  {
    hide Iso, TargetForOperation;
    AcceptedIffCreatedBefore(rule, op, history, now);
    AcceptedIffCreatedBefore(rule, op, history, later);
  }

  /** The recorded reason is not as stable: it is the same at both times exactly when the two lookups
      agree on whether the account exists. */
  lemma ReasonDependsOnLookupTime(rule: NameRule, op: Op, history: History, now: Fields, later: Fields)
    requires ProperHistory(history) && ProperOp(op)
    requires now.Valid() && !FieldsBefore(now, op.at) && later.Valid() && !FieldsBefore(later, op.at)
    ensures var target := TargetForOperation(rule, op);
      DecisionAt(rule, op, history, now) == DecisionAt(rule, op, history, later) <==>
        (target.Lookup? && target.account in history ==>
           (FieldsBefore(now, history[target.account]) <==> FieldsBefore(later, history[target.account])))
  {
    hide Iso, TargetForOperation, Fields.Valid;
    AcceptedIffCreatedBefore(rule, op, history, now);
    AcceptedIffCreatedBefore(rule, op, history, later);
    var target := TargetForOperation(rule, op);
    if target.Lookup? && target.account in history && FieldsBefore(history[target.account], op.at) {
      BeforeIsOrder(history[target.account], op.at, now);
      BeforeIsOrder(history[target.account], op.at, later);
    }
  }

  /** The reason given for an account that was not created before the operation. */
  lemma RefusalReason(rule: NameRule, op: Op, history: History, now: Fields)
    requires ProperHistory(history) && ProperOp(op)
    requires TargetForOperation(rule, op).Lookup? && TargetForOperation(rule, op).account in history
    requires !FieldsBefore(history[TargetForOperation(rule, op).account], op.at)
    ensures DecisionAt(rule, op, history, now) == Refused(
      if FieldsBefore(now, history[TargetForOperation(rule, op).account]) then "Hive account does not exist"
      else "Hive account did not exist before operation timestamp")
  {
    hide Iso, FieldsBefore, TargetForOperation, Fields.Valid;
    LookedUpText(rule, op);
    IsoOrder(history[TargetForOperation(rule, op).account], op.at);
  }

  /** A transfer from alice to bob on the first day of 2024. */
  function SampleOp(at: Fields): Op { Op("op", Transfer, "alice", at, Text("bob"), None) }

  function MidnightAnd(minute: nat, second: nat): Fields { Fields(Date(2024, 1, 1), 0, minute, second, 0) }

  lemma SampleTarget(at: Fields)
    ensures TargetForOperation(_ => None, SampleOp(at)) == Lookup("bob", Iso(at))
  {
    hide Iso;
  }

  lemma SampleIsValid(minute: nat, second: nat)
    requires minute < 60 && second < 60
    ensures MidnightAnd(minute, second).Valid()
  {
    assert Date(2024, 1, 1).Valid();
  }

  lemma SampleTimes(minute: nat, second: nat, minute': nat, second': nat)
    ensures FieldsBefore(MidnightAnd(minute, second), MidnightAnd(minute', second')) <==>
      60 * minute + second < 60 * minute' + second'
  {}

  /** A transfer to an account that comes into being ten seconds after it: looked up at once the account does
      not exist, looked up a minute later it did not exist in time. Refused both times, for other reasons. */
  lemma ReasonCanDiffer()
    ensures var op, history := SampleOp(MidnightAnd(0, 0)), map["bob" := MidnightAnd(0, 10)];
      && ProperHistory(history) && ProperOp(op)
      && DecisionAt(_ => None, op, history, MidnightAnd(0, 0)) == Refused("Hive account does not exist")
      && DecisionAt(_ => None, op, history, MidnightAnd(1, 0))
         == Refused("Hive account did not exist before operation timestamp")
  {
    hide Iso, DecisionAt, TargetForOperation, FieldsBefore, Fields.Valid;
    var op, history := SampleOp(MidnightAnd(0, 0)), map["bob" := MidnightAnd(0, 10)];
    SampleIsValid(0, 0);
    SampleIsValid(0, 10);
    SampleIsValid(1, 0);
    SampleTimes(0, 0, 0, 10);
    SampleTimes(0, 10, 0, 0);
    SampleTimes(0, 0, 0, 0);
    SampleTimes(1, 0, 0, 10);
    SampleTimes(1, 0, 0, 0);
    SampleTarget(MidnightAnd(0, 0));
    var rule: NameRule := _ => None;
    assert TargetForOperation(rule, op) == Lookup("bob", Iso(op.at));
    RefusalReason(rule, op, history, MidnightAnd(0, 0));
    RefusalReason(rule, op, history, MidnightAnd(1, 0));
  }

  // ---- Which accounts are looked up ----

  /** Transfers, delegated transfers and loans always name an account; mints and distributions may. */
  predicate NamesAccount(op: Op) {
    || op.action == Transfer || op.action == TransferFrom || op.action == Lend
    || ((op.action == Mint || op.action == BulkDistribute) && op.field != Missing)
  }

  /** The field holds a name that passes the syntax rules and is not the burn recipient. */
  predicate HasName(rule: NameRule, op: Op) {
    op.field.Text? && op.field.account != "" && op.field.account != "null" && rule(op.field.account) == None
  }

  /** Whose account is looked up: of every operation that names one with a proper name, unless it is the
      signer's own; and it is compared with the operation's own time. */
  lemma LookedUpExactly(rule: NameRule, op: Op)
    ensures TargetForOperation(rule, op).Lookup? <==>
      op.authMismatch == None && NamesAccount(op) && HasName(rule, op) && op.field.account != op.signer
    ensures TargetForOperation(rule, op).Lookup? ==> TargetForOperation(rule, op) == Lookup(op.field.account, Iso(op.at))
  {
    hide Iso;
  }

  /** What goes without a lookup: operations that name no account, those to the burn recipient unless they are
      delegated transfers, and those to the signer unless they are transfers. */
  lemma ExemptExactly(rule: NameRule, op: Op)
    ensures TargetForOperation(rule, op) == NotRequired <==>
      op.authMismatch == None &&
      (|| !NamesAccount(op)
       || (op.field == Text("null") && op.action != TransferFrom)
       || (HasName(rule, op) && op.field.account == op.signer && op.action != Transfer))
  {
    hide Iso;
  }

  /** What is refused without a lookup, and why. */
  lemma RefusedExactly(rule: NameRule, op: Op, reason: string)
    ensures TargetForOperation(rule, op) == Rejected(reason) <==>
      || op.authMismatch == Some(reason)
      || (op.authMismatch == None && NamesAccount(op) &&
          if !op.field.Text? || op.field.account == "" then reason == "Missing or invalid account field"
          else if op.field.account == "null" then op.action == TransferFrom && reason == "Delegated burn is not allowed"
          else if rule(op.field.account).Some? then rule(op.field.account) == Some(reason)
          else op.action == Transfer && op.field.account == op.signer && reason == "Cannot transfer Asset to yourself")
  {
    hide Iso;
  }
}
