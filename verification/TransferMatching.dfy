/** Matching payments to the transfers of the same Hive transaction.
    (packages/indexer/src/utils/validation.ts, packages/indexer/src/utils/fee-validator.ts) */
module TransferMatching {
  import opened Prelude
  import opened PaymentSplits

  /** Amounts are in thousandths: two three-decimal amounts closer than 0.0005 are equal. */
  datatype Transfer = Transfer(from: string, to: string, amount: int, currency: string, memo: string)

  /** The fields a transfer must agree on; an absent field is not looked at. */
  datatype Leg = Leg(from: Option<string>, to: string, amount: Option<int>, currency: Option<string>, memo: string)
  {
    predicate Matches(t: Transfer) {
      && (from.Some? ==> t.from == from.value)
      && t.to == to
      && (amount.Some? ==> t.amount == amount.value)
      && (currency.Some? ==> t.currency == currency.value)
      && t.memo == memo
    }
  }

  /** `i` is a transfer nobody has claimed yet that matches the leg. */
  predicate Candidate(ts: seq<Transfer>, taken: set<nat>, leg: Leg, i: int) {
    0 <= i < |ts| && i !in taken && leg.Matches(ts[i])
  }

  /** `i` is the one and only candidate. */
  ghost predicate OnlyCandidate(ts: seq<Transfer>, taken: set<nat>, leg: Leg, i: int) {
    Candidate(ts, taken, leg, i) && forall j :: Candidate(ts, taken, leg, j) ==> j == i
  }

  function Candidates(ts: seq<Transfer>, taken: set<nat>, leg: Leg, n: nat): (c: seq<nat>)
    requires n <= |ts|
    ensures forall i :: i in c <==> i < n && Candidate(ts, taken, leg, i)
    ensures forall k :: 0 <= k < |c| ==> c[k] < n
    ensures forall k, l :: 0 <= k < l < |c| ==> c[k] < c[l]
  {
    if n == 0 then []
    else
      var front := Candidates(ts, taken, leg, n - 1);
      if Candidate(ts, taken, leg, n - 1) then front + [n - 1] else front
  }

  function FindUnique(ts: seq<Transfer>, taken: set<nat>, leg: Leg): (r: Outcome<nat>)
    ensures !r.Fault?
    ensures r.Ok? ==> OnlyCandidate(ts, taken, leg, r.value)
    ensures r.Reject? ==> forall i :: !OnlyCandidate(ts, taken, leg, i)
  {
    var c := Candidates(ts, taken, leg, |ts|);
    if |c| == 0 then Reject("missing transfer")
    else if |c| > 1 then assert c[0] in c && c[1] in c; Reject("ambiguous transfer")
    else
      assert forall j :: j in c ==> j == c[0];
      Ok(c[0])
  }

  /** The scan of the source: collect the candidates, then insist on exactly one. */
  method FindUniqueTransferIndex(ts: seq<Transfer>, consumed: set<nat>, staged: set<nat>, leg: Leg)
    returns (r: Outcome<nat>)
    ensures r == FindUnique(ts, consumed + staged, leg)
  {
    var candidates: seq<nat> := [];
    for idx := 0 to |ts|
      invariant candidates == Candidates(ts, consumed + staged, leg, idx)
    {
      if idx in consumed { continue; }
      if idx in staged { continue; }
      if !leg.Matches(ts[idx]) { continue; }
      candidates := candidates + [idx];
    }
    if |candidates| == 0 { return Reject("missing transfer"); }
    if |candidates| > 1 { return Reject("ambiguous transfer"); }
    return Ok(candidates[0]);
  }

  // ---- A sale: seller, royalty and fee legs from one buyer ----

  datatype Sale = Sale(
    seller: string,
    totalPrice: int,
    currency: string,
    royaltyPct: real,
    royaltyRecipient: Option<string>,
    feeAccount: string,
    assetId: string)
  {
    function Split(): Result<Split> {
      CalculateSplit(totalPrice, royaltyPct, royaltyRecipient, seller, feeAccount)
    }
  }

  datatype Match = Match(split: Split, buyer: string, indices: seq<nat>)

  function BuyMemo(assetId: string): string { "NFTLox BUY:" + assetId }
  function RoyaltyMemo(assetId: string): string { "NFTLox ROY:" + assetId }
  function FeeMemo(assetId: string): string { "NFTLox FEE:" + assetId }

  /** The seller leg comes first and names the buyer; the other legs must come from that buyer. */
  function SellerLeg(p: Sale, s: Split): Leg {
    Leg(None, p.seller, Some(s.sellerUnits), Some(p.currency), BuyMemo(p.assetId))
  }

  function RoyaltyLeg(p: Sale, s: Split, buyer: string): seq<Leg> {
    if s.royaltyUnits > 0 && s.royaltyRecipient.Some? && s.royaltyRecipient.value != "" then
      [Leg(Some(buyer), s.royaltyRecipient.value, Some(s.royaltyUnits), Some(p.currency), RoyaltyMemo(p.assetId))]
    else []
  }

  function FeeLeg(p: Sale, s: Split, buyer: string): seq<Leg> {
    if s.feeUnits > 0 then
      [Leg(Some(buyer), p.feeAccount, Some(s.feeUnits), Some(p.currency), FeeMemo(p.assetId))]
    else []
  }

  function BuyerLegs(p: Sale, s: Split, buyer: string): seq<Leg> {
    RoyaltyLeg(p, s, buyer) + FeeLeg(p, s, buyer)
  }

  function SetOf(indices: seq<nat>): set<nat> { set i | i in indices }

  /** Two searches in a row: the first failure wins, and the results are put together. */
  function Join(first: Outcome<seq<nat>>, second: Outcome<seq<nat>>): Outcome<seq<nat>> {
    if first.Ok? && second.Ok? then Ok(first.value + second.value)
    else if first.Ok? then second
    else first
  }

  function FindOne(ts: seq<Transfer>, taken: set<nat>, leg: Leg): Outcome<seq<nat>> {
    var r := FindUnique(ts, taken, leg);
    if r.Ok? then Ok([r.value]) else Reject(r.reason)
  }

  /** Match the legs one after the other, each found index being off limits to the next leg. */
  function MatchLegs(ts: seq<Transfer>, taken: set<nat>, legs: seq<Leg>): (r: Outcome<seq<nat>>)
    ensures !r.Fault?
    decreases |legs|
  {
    if legs == [] then Ok([])
    else
      var found := FindOne(ts, taken, legs[0]);
      if !found.Ok? then found
      else Join(found, MatchLegs(ts, taken + SetOf(found.value), legs[1..]))
  }

  /** An unusable price or royalty is an internal error, not a protocol rejection. */
  function Plan(ts: seq<Transfer>, consumed: set<nat>, p: Sale): Outcome<Match> {
    if |ts| == 0 then Reject("No transfers found. Payment split is required.")
    else
      match p.Split()
      case Error(e) => Fault(e)
      case Done(split) =>
        if split.sellerUnits <= 0 then Reject("non-positive seller payment")
        else
          match FindUnique(ts, consumed, SellerLeg(p, split))
          case Reject(e) => Reject(e)
          case Ok(i) =>
            var buyer := ts[i].from;
            match MatchLegs(ts, consumed + {i}, BuyerLegs(p, split, buyer))
            case Reject(e) => Reject(e)
            case Ok(rest) => Ok(Match(split, buyer, [i] + rest))
  }

  /** The transfers of one Hive transaction and the indices its operations have claimed. */
  class TransferPool {
    const transfers: seq<Transfer>
    var consumed: set<nat>

    constructor (transfers: seq<Transfer>)
      ensures this.transfers == transfers && consumed == {}
    {
      this.transfers, consumed := transfers, {};
    }

    /** Looks for a leg the split may not have; what it finds is staged. */
    method ExpectBuyerTransfer(staged: set<nat>, leg: seq<Leg>) returns (r: Outcome<seq<nat>>)
      requires |leg| <= 1
      ensures r == MatchLegs(transfers, consumed + staged, leg)
    {
      if leg == [] { return Ok([]); }
      var found := FindUniqueTransferIndex(transfers, consumed, staged, leg[0]);
      if !found.Ok? { return Reject(found.reason); }
      assert leg[1..] == [] && [found.value] + [] == [found.value];
      return Ok([found.value]);
    }

    /** Stages every leg first and publishes to the pool only when all of them are found. */
    method VerifyTransfers(p: Sale) returns (r: Outcome<Match>)
      modifies this
      ensures r == Plan(transfers, old(consumed), p)
      ensures consumed == old(consumed) + (if r.Ok? then SetOf(r.value.indices) else {})
    {
      if |transfers| == 0 { return Reject("No transfers found. Payment split is required."); }
      var computed := p.Split();
      if computed.Error? { return Fault(computed.message); }
      var split := computed.value;
      if split.sellerUnits <= 0 { return Reject("non-positive seller payment"); }
      var seller := FindUniqueTransferIndex(transfers, consumed, {}, SellerLeg(p, split));
      assert consumed + {} == consumed;
      if !seller.Ok? { return Reject(seller.reason); }
      var staged: set<nat> := {seller.value};
      var buyer := transfers[seller.value].from;
      MatchLegsSplit(transfers, consumed + staged, RoyaltyLeg(p, split, buyer), FeeLeg(p, split, buyer));
      var royalty := ExpectBuyerTransfer(staged, RoyaltyLeg(p, split, buyer));
      if !royalty.Ok? { return Reject(royalty.reason); }
      assert consumed + (staged + SetOf(royalty.value)) == consumed + staged + SetOf(royalty.value);
      staged := staged + SetOf(royalty.value);
      var fee := ExpectBuyerTransfer(staged, FeeLeg(p, split, buyer));
      if !fee.Ok? { return Reject(fee.reason); }
      var stagedIndices := [seller.value] + (royalty.value + fee.value);
      consumed := consumed + SetOf(stagedIndices);
      return Ok(Match(split, buyer, stagedIndices));
    }
  }

  lemma {:induction false} MatchLegsSplit(ts: seq<Transfer>, taken: set<nat>, a: seq<Leg>, b: seq<Leg>)
    ensures var first := MatchLegs(ts, taken, a);
      MatchLegs(ts, taken, a + b) ==
        if first.Ok? then Join(first, MatchLegs(ts, taken + SetOf(first.value), b)) else first
    decreases |a|
  {
    if a == [] {
      assert a + b == b && taken + SetOf([]) == taken;
      var second := MatchLegs(ts, taken, b);
      assert second.Ok? ==> [] + second.value == second.value;
    } else {
      assert (a + b)[1..] == a[1..] + b;
      var found := FindOne(ts, taken, a[0]);
      if found.Ok? {
        var taken' := taken + SetOf(found.value);
        MatchLegsSplit(ts, taken', a[1..], b);
        var rest := MatchLegs(ts, taken', a[1..]);
        if rest.Ok? {
          assert taken + SetOf(found.value + rest.value) == taken' + SetOf(rest.value);
          JoinAssociates(found, rest, MatchLegs(ts, taken' + SetOf(rest.value), b));
        }
      }
    }
  }

  lemma JoinAssociates(a: Outcome<seq<nat>>, b: Outcome<seq<nat>>, c: Outcome<seq<nat>>)
    ensures Join(a, Join(b, c)) == Join(Join(a, b), c)
  {
    if a.Ok? && b.Ok? && c.Ok? { assert a.value + (b.value + c.value) == a.value + b.value + c.value; }
  }

  // ---- A fixed fee ----

  /** Only recipient and memo pick the transfer; currency and amount are then checked on it. */
  function FixedFee(ts: seq<Transfer>, consumed: set<nat>, requiredUnits: int, target: string, memo: string)
    : (r: Outcome<nat>)
    ensures r.Ok? ==>
      && OnlyCandidate(ts, consumed, Leg(None, target, None, None, memo), r.value)
      && ts[r.value].currency == "HBD" && ts[r.value].amount == requiredUnits
    ensures !r.Ok? ==> r.Reject? && forall i :: OnlyCandidate(ts, consumed, Leg(None, target, None, None, memo), i) ==>
      ts[i].currency != "HBD" || ts[i].amount != requiredUnits
  {
    match FindUnique(ts, consumed, Leg(None, target, None, None, memo))
    case Reject(e) => Reject(e)
    case Fault(e) => Fault(e)
    case Ok(i) =>
      if ts[i].currency != "HBD" then Reject("Protocol fees must be paid in HBD")
      else if ts[i].amount != requiredUnits then Reject("Fee amount mismatch")
      else Ok(i)
  }

  method ValidateFixedFee(ts: seq<Transfer>, consumed: set<nat>, requiredUnits: int, target: string, memo: string)
    returns (r: Outcome<nat>)
    ensures r == FixedFee(ts, consumed, requiredUnits, target, memo)
  {
    var leg := Leg(None, target, None, None, memo);
    var candidates: seq<nat> := [];
    for idx := 0 to |ts|
      invariant candidates == Candidates(ts, consumed, leg, idx)
    {
      if idx in consumed { continue; }
      if ts[idx].to != target { continue; }
      if ts[idx].memo != memo { continue; }
      candidates := candidates + [idx];
    }
    if |candidates| == 0 { return Reject("missing transfer"); }
    if |candidates| > 1 { return Reject("ambiguous transfer"); }
    assert candidates[0] in candidates;
    var t := ts[candidates[0]];
    if t.currency != "HBD" { return Reject("Protocol fees must be paid in HBD"); }
    if t.amount != requiredUnits { return Reject("Fee amount mismatch"); }
    return Ok(candidates[0]);
  }

  // ---- What a match means ----

  /** Coins of one currency carried by the transfers at `idx`, counting each index once. */
  function Carried(ts: seq<Transfer>, currency: string, idx: set<nat>): int {
    if ts == [] then 0 else
      var n := |ts| - 1;
      Carried(ts[..n], currency, idx) + (if n in idx && ts[n].currency == currency then ts[n].amount else 0)
  }

  lemma {:induction false} CarriedUnion(ts: seq<Transfer>, currency: string, a: set<nat>, b: set<nat>)
    requires a !! b
    ensures Carried(ts, currency, a + b) == Carried(ts, currency, a) + Carried(ts, currency, b)
  {
    if ts != [] { CarriedUnion(ts[..|ts| - 1], currency, a, b); }
  }

  lemma {:induction false} CarriedNothing(ts: seq<Transfer>, currency: string)
    ensures Carried(ts, currency, {}) == 0
  {
    if ts != [] { CarriedNothing(ts[..|ts| - 1], currency); }
  }

  lemma {:induction false} CarriedOne(ts: seq<Transfer>, currency: string, i: nat)
    requires i < |ts|
    ensures Carried(ts, currency, {i}) == if ts[i].currency == currency then ts[i].amount else 0
  {
    var n := |ts| - 1;
    if i < n { CarriedOne(ts[..n], currency, i); } else { CarriedBeyond(ts[..n], currency, i); }
  }

  lemma {:induction false} CarriedBeyond(ts: seq<Transfer>, currency: string, i: nat)
    requires i >= |ts|
    ensures Carried(ts, currency, {i}) == 0
  {
    if ts != [] { CarriedBeyond(ts[..|ts| - 1], currency, i); }
  }

  lemma {:induction false} CarriedAtMostAll(ts: seq<Transfer>, currency: string, a: set<nat>, all: set<nat>)
    requires forall t :: t in ts ==> t.amount >= 0
    requires forall i: nat :: i < |ts| ==> i in all
    ensures Carried(ts, currency, a) <= Carried(ts, currency, all)
  {
    if ts != [] { CarriedAtMostAll(ts[..|ts| - 1], currency, a, all); }
  }

  function LegUnits(legs: seq<Leg>): int {
    if legs == [] then 0 else (if legs[0].amount.Some? then legs[0].amount.value else 0) + LegUnits(legs[1..])
  }

  lemma {:induction false} MatchLegsMeaning(ts: seq<Transfer>, taken: set<nat>, legs: seq<Leg>)
    requires MatchLegs(ts, taken, legs).Ok?
    ensures var r := MatchLegs(ts, taken, legs).value;
      && |r| == |legs|
      && (forall k :: 0 <= k < |r| ==> r[k] < |ts| && r[k] !in taken && legs[k].Matches(ts[r[k]]))
      && (forall k, l :: 0 <= k < l < |r| ==> r[k] != r[l])
    decreases |legs|
  {
    if legs != [] {
      var i := FindUnique(ts, taken, legs[0]).value;
      assert SetOf([i]) == {i};
      MatchLegsMeaning(ts, taken + {i}, legs[1..]);
      var rest := MatchLegs(ts, taken + {i}, legs[1..]).value;
      var r := MatchLegs(ts, taken, legs).value;
      assert forall k :: 0 < k < |r| ==> r[k] == rest[k - 1] && legs[k] == legs[1..][k - 1];
    }
  }

  /** Distinct transfers that match legs of one currency carry the legs' amounts. */
  lemma {:induction false} CarriedByLegs(ts: seq<Transfer>, r: seq<nat>, legs: seq<Leg>, currency: string, c: string)
    requires |r| == |legs| && forall l :: l in legs ==> l.amount.Some? && l.currency == Some(currency)
    requires forall k :: 0 <= k < |r| ==> r[k] < |ts| && legs[k].Matches(ts[r[k]])
    requires forall k, l :: 0 <= k < l < |r| ==> r[k] != r[l]
    ensures Carried(ts, c, SetOf(r)) == if c == currency then LegUnits(legs) else 0
    decreases |r|
  {
    if r == [] {
      assert SetOf(r) == {};
      CarriedNothing(ts, c);
    } else {
      CarriedByLegs(ts, r[1..], legs[1..], currency, c);
      assert legs[0] in legs;
      SetOfCons(r);
      CarriedOne(ts, c, r[0]);
      CarriedUnion(ts, c, {r[0]}, SetOf(r[1..]));
    }
  }

  lemma SetOfCons(r: seq<nat>)
    requires r != [] && forall k :: 0 < k < |r| ==> r[0] != r[k]
    ensures SetOf(r) == {r[0]} + SetOf(r[1..]) && {r[0]} !! SetOf(r[1..])
  {
    assert r == [r[0]] + r[1..];
  }

  /** A match claims distinct, unclaimed transfers of one buyer that carry exactly the price,
      in the listing's currency and in nothing else. */
  lemma MatchPaysExactlyThePrice(ts: seq<Transfer>, consumed: set<nat>, p: Sale, c: string)
    requires Plan(ts, consumed, p).Ok?
    ensures var m := Plan(ts, consumed, p).value;
      && p.Split() == Done(m.split)
      && (forall k :: 0 <= k < |m.indices| ==>
            m.indices[k] < |ts| && m.indices[k] !in consumed && ts[m.indices[k]].from == m.buyer)
      && (forall k, l :: 0 <= k < l < |m.indices| ==> m.indices[k] != m.indices[l])
      && Carried(ts, c, SetOf(m.indices)) == if c == p.currency then p.totalPrice else 0
  {
    hide Plan, BuyerLegs, Sale.Split, Carried, SetOf;
    var m := Plan(ts, consumed, p).value;
    PlanFollowsSplit(ts, consumed, p);
    SplitAddsUp(p, m.split);
    var legs := [SellerLeg(p, m.split)] + BuyerLegs(p, m.split, m.buyer);
    MatchFollowsLegs(ts, consumed, p);
    LegUnitsOfBuyerLegs(p, m.split, m.buyer);
    assert legs[1..] == BuyerLegs(p, m.split, m.buyer);
    CarriedByLegs(ts, m.indices, legs, p.currency, c);
  }

  lemma PlanFollowsSplit(ts: seq<Transfer>, consumed: set<nat>, p: Sale)
    requires Plan(ts, consumed, p).Ok?
    ensures p.Split() == Done(Plan(ts, consumed, p).value.split)
  {
    hide MatchLegs, FindUnique, BuyerLegs, Sale.Split;
  }

  lemma SplitAddsUp(p: Sale, s: Split)
    requires p.Split() == Done(s)
    ensures s.sellerUnits + s.royaltyUnits + s.feeUnits == p.totalPrice
    ensures s.royaltyUnits >= 0 && s.feeUnits >= 0
    ensures s.royaltyUnits > 0 ==> s.royaltyRecipient.Some? && s.royaltyRecipient.value != ""
  {
    SplitConserves(p.totalPrice, p.royaltyPct, p.royaltyRecipient, p.seller, p.feeAccount);
  }

  lemma MatchFollowsLegs(ts: seq<Transfer>, consumed: set<nat>, p: Sale)
    requires Plan(ts, consumed, p).Ok?
    ensures var m := Plan(ts, consumed, p).value;
      var legs := [SellerLeg(p, m.split)] + BuyerLegs(p, m.split, m.buyer);
      && |m.indices| == |legs| && m.indices[0] < |ts| && m.buyer == ts[m.indices[0]].from
      && (forall k :: 0 <= k < |legs| ==>
            m.indices[k] < |ts| && m.indices[k] !in consumed && legs[k].Matches(ts[m.indices[k]]))
      && (forall k, l :: 0 <= k < l < |legs| ==> m.indices[k] != m.indices[l])
  {
    hide SellerLeg, BuyerLegs, Sale.Split, MatchLegs, Leg.Matches;
    var m := Plan(ts, consumed, p).value;
    var i, buyerLegs := m.indices[0], BuyerLegs(p, m.split, m.buyer);
    MatchLegsMeaning(ts, consumed + {i}, buyerLegs);
    var rest := MatchLegs(ts, consumed + {i}, buyerLegs).value;
    assert m.indices == [i] + rest;
  }

  lemma LegUnitsOfBuyerLegs(p: Sale, s: Split, buyer: string)
    requires s.royaltyUnits >= 0 && s.feeUnits >= 0
    requires s.royaltyUnits > 0 ==> s.royaltyRecipient.Some? && s.royaltyRecipient.value != ""
    ensures LegUnits(BuyerLegs(p, s, buyer)) == s.royaltyUnits + s.feeUnits
    ensures forall l :: l in BuyerLegs(p, s, buyer) ==>
      l.amount.Some? && l.currency == Some(p.currency) && l.from == Some(buyer)
  {
    var royalty, fee := RoyaltyLeg(p, s, buyer), FeeLeg(p, s, buyer);
    LegUnitsSum(royalty, fee);
    assert LegUnits(royalty) == s.royaltyUnits by { if royalty != [] { assert royalty[1..] == []; } }
    assert LegUnits(fee) == s.feeUnits by { if fee != [] { assert fee[1..] == []; } }
  }

  lemma {:induction false} LegUnitsSum(a: seq<Leg>, b: seq<Leg>)
    ensures LegUnits(a + b) == LegUnits(a) + LegUnits(b)
    decreases |a|
  {
    if a == [] { assert a + b == b; } else { assert (a + b)[1..] == a[1..] + b; LegUnitsSum(a[1..], b); }
  }

  // ---- The order of the transfers does not matter ----

  /** `us` is `ts` rearranged: transfer `i` moved to place `to[i]`, and `back` undoes it. */
  ghost predicate Rearranged(ts: seq<Transfer>, us: seq<Transfer>, to: seq<nat>, back: seq<nat>) {
    && |ts| == |us| == |to| == |back|
    && (forall i :: 0 <= i < |ts| ==> to[i] < |us| && us[to[i]] == ts[i] && back[to[i]] == i)
    && (forall j :: 0 <= j < |us| ==> back[j] < |ts| && to[back[j]] == j)
  }

  /** The same claims, named by the new places. */
  ghost predicate MovedTo(taken: set<nat>, taken': set<nat>, to: seq<nat>) {
    forall i :: 0 <= i < |to| ==> (i in taken <==> to[i] in taken')
  }

  ghost function Moved(indices: seq<nat>, to: seq<nat>): seq<nat>
    requires forall k :: 0 <= k < |indices| ==> indices[k] < |to|
  {
    seq(|indices|, k requires 0 <= k < |indices| => to[indices[k]])
  }

  lemma FindUniqueMoves(ts: seq<Transfer>, us: seq<Transfer>, to: seq<nat>, back: seq<nat>,
                        taken: set<nat>, taken': set<nat>, leg: Leg)
    requires Rearranged(ts, us, to, back) && MovedTo(taken, taken', to)
    ensures var r, r' := FindUnique(ts, taken, leg), FindUnique(us, taken', leg);
      (r.Ok? <==> r'.Ok?) && (r.Ok? ==> r'.value == to[r.value])
  {
    var r, r' := FindUnique(ts, taken, leg), FindUnique(us, taken', leg);
    if r.Ok? {
      assert Candidate(us, taken', leg, to[r.value]);
      forall j | Candidate(us, taken', leg, j) ensures j == to[r.value] {
        assert Candidate(ts, taken, leg, back[j]);
      }
      assert OnlyCandidate(us, taken', leg, to[r.value]);
    }
    if r'.Ok? {
      var i := back[r'.value];
      assert Candidate(ts, taken, leg, i);
      forall j | Candidate(ts, taken, leg, j) ensures j == i {
        assert Candidate(us, taken', leg, to[j]);
      }
      assert OnlyCandidate(ts, taken, leg, i);
    }
  }

  lemma MovedToMore(ts: seq<Transfer>, us: seq<Transfer>, to: seq<nat>, back: seq<nat>,
                    taken: set<nat>, taken': set<nat>, i: nat)
    requires Rearranged(ts, us, to, back) && MovedTo(taken, taken', to) && i < |ts|
    ensures MovedTo(taken + {i}, taken' + {to[i]}, to)
  {}

  lemma MovedCons(i: nat, rest: seq<nat>, to: seq<nat>)
    requires i < |to| && forall k :: 0 <= k < |rest| ==> rest[k] < |to|
    ensures forall k :: 0 <= k < |[i] + rest| ==> ([i] + rest)[k] < |to|
    ensures Moved([i] + rest, to) == [to[i]] + Moved(rest, to)
  {}

  lemma {:induction false} MatchLegsMove(ts: seq<Transfer>, us: seq<Transfer>, to: seq<nat>, back: seq<nat>,
                                         taken: set<nat>, taken': set<nat>, legs: seq<Leg>)
    requires Rearranged(ts, us, to, back) && MovedTo(taken, taken', to)
    decreases |legs|
    ensures var r, r' := MatchLegs(ts, taken, legs), MatchLegs(us, taken', legs);
      && (r.Ok? <==> r'.Ok?)
      && (r.Ok? ==> (forall k :: 0 <= k < |r.value| ==> r.value[k] < |ts|) && r'.value == Moved(r.value, to))
  {
    if legs != [] {
      FindUniqueMoves(ts, us, to, back, taken, taken', legs[0]);
      var r := FindUnique(ts, taken, legs[0]);
      if r.Ok? {
        assert SetOf([r.value]) == {r.value} && SetOf([to[r.value]]) == {to[r.value]};
        MovedToMore(ts, us, to, back, taken, taken', r.value);
        MatchLegsMove(ts, us, to, back, taken + {r.value}, taken' + {to[r.value]}, legs[1..]);
        var rest := MatchLegs(ts, taken + {r.value}, legs[1..]);
        if rest.Ok? { MovedCons(r.value, rest.value, to); }
      }
    }
  }

  /** Rearranging the transfers rearranges the match and never changes whether there is one. */
  lemma MatchIgnoresTransferOrder(ts: seq<Transfer>, us: seq<Transfer>, to: seq<nat>, back: seq<nat>,
                                  consumed: set<nat>, consumed': set<nat>, p: Sale)
    requires Rearranged(ts, us, to, back) && MovedTo(consumed, consumed', to)
    ensures var r, r' := Plan(ts, consumed, p), Plan(us, consumed', p);
      && (r.Ok? <==> r'.Ok?) && (r.Fault? <==> r'.Fault?)
      && (r.Ok? ==>
            && (forall k :: 0 <= k < |r.value.indices| ==> r.value.indices[k] < |ts|)
            && r'.value == Match(r.value.split, r.value.buyer, Moved(r.value.indices, to)))
  {
    if |ts| > 0 && p.Split().Done? && p.Split().value.sellerUnits > 0 {
      var s := p.Split().value;
      FindUniqueMoves(ts, us, to, back, consumed, consumed', SellerLeg(p, s));
      var r := FindUnique(ts, consumed, SellerLeg(p, s));
      if r.Ok? { BuyerLegsMove(ts, us, to, back, consumed, consumed', r.value, BuyerLegs(p, s, ts[r.value].from)); }
    }
  }

  lemma BuyerLegsMove(ts: seq<Transfer>, us: seq<Transfer>, to: seq<nat>, back: seq<nat>,
                      consumed: set<nat>, consumed': set<nat>, i: nat, legs: seq<Leg>)
    requires Rearranged(ts, us, to, back) && MovedTo(consumed, consumed', to) && i < |ts|
    ensures var r, r' := MatchLegs(ts, consumed + {i}, legs), MatchLegs(us, consumed' + {to[i]}, legs);
      && (r.Ok? <==> r'.Ok?)
      && (r.Ok? ==>
            && (forall k :: 0 <= k < |[i] + r.value| ==> ([i] + r.value)[k] < |ts|)
            && [to[i]] + r'.value == Moved([i] + r.value, to))
  {
    MovedToMore(ts, us, to, back, consumed, consumed', i);
    MatchLegsMove(ts, us, to, back, consumed + {i}, consumed' + {to[i]}, legs);
    var r := MatchLegs(ts, consumed + {i}, legs);
    if r.Ok? { MovedCons(i, r.value, to); }
  }
}
