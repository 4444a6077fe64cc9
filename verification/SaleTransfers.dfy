/** Which transfers pay a sale, said about the transfers themselves.
    (packages/indexer/src/utils/validation.ts) */
module SaleTransfers {
  import opened Prelude
  import opened PaymentSplits
  import opened TransferMatching

  /** The transfer is this payment; without a sender anybody may have made it. */
  predicate Pays(t: Transfer, sender: Option<string>, to: string, units: int, currency: string, memo: string) {
    && (sender.Some? ==> t.from == sender.value)
    && t.to == to && t.amount == units && t.currency == currency && t.memo == memo
  }

  /** A payment that is to be found among the transfers. */
  datatype Payment = Payment(sender: Option<string>, to: string, units: int, currency: string, memo: string)

  ghost predicate PaidBy(ts: seq<Transfer>, taken: set<nat>, d: Payment, i: nat) {
    i < |ts| && i !in taken && Pays(ts[i], d.sender, d.to, d.units, d.currency, d.memo)
  }

  /** This transfer is the payment, and no other that is still free is. */
  ghost predicate PaidOnlyBy(ts: seq<Transfer>, taken: set<nat>, d: Payment, i: nat) {
    PaidBy(ts, taken, d, i) && forall j: nat :: PaidBy(ts, taken, d, j) ==> j == i
  }

  /** No free transfer is the payment, or more than one is. */
  ghost predicate NotPaid(ts: seq<Transfer>, taken: set<nat>, d: Payment, reason: string) {
    || (reason == "missing transfer" && forall i: nat :: !PaidBy(ts, taken, d, i))
    || (reason == "ambiguous transfer" && exists i: nat, j: nat :: i != j && PaidBy(ts, taken, d, i) && PaidBy(ts, taken, d, j))
  }

  function ToSeller(p: Sale, s: Split): Payment {
    Payment(None, p.seller, s.sellerUnits, p.currency, "NFTLox BUY:" + p.assetId)
  }

  function ToRoyaltyRecipient(p: Sale, s: Split, buyer: string): Payment
    requires s.royaltyRecipient.Some?
  {
    Payment(Some(buyer), s.royaltyRecipient.value, s.royaltyUnits, p.currency, "NFTLox ROY:" + p.assetId)
  }

  function ToFeeAccount(p: Sale, s: Split, buyer: string): Payment {
    Payment(Some(buyer), p.feeAccount, s.feeUnits, p.currency, "NFTLox FEE:" + p.assetId)
  }

  /** What the listing's price divides into. */
  predicate SplitsInto(p: Sale, s: Split) {
    CalculateSplit(p.totalPrice, p.royaltyPct, p.royaltyRecipient, p.seller, p.feeAccount) == Done(s)
  }

  function One(i: Option<nat>): seq<nat> { if i.Some? then [i.value] else [] }

  function Taking(taken: set<nat>, i: Option<nat>): set<nat> { if i.Some? then taken + {i.value} else taken }

  /** The transfer to the seller names the buyer, and from the buyer come the royalty and the fee, where they
      are due, each by one free transfer and no other. */
  ghost predicate Paid(ts: seq<Transfer>, taken: set<nat>, p: Sale, s: Split, seller: nat, royalty: Option<nat>, fee: Option<nat>) {
    && SplitsInto(p, s)
    && PaidOnlyBy(ts, taken, ToSeller(p, s), seller)
    && RoyaltyPaid(ts, taken + {seller}, p, s, ts[seller].from, royalty)
    && FeePaid(ts, Taking(taken + {seller}, royalty), p, s, ts[seller].from, fee)
  }

  ghost predicate RoyaltyPaid(ts: seq<Transfer>, taken: set<nat>, p: Sale, s: Split, buyer: string, royalty: Option<nat>) {
    && (royalty.Some? <==> s.royaltyUnits > 0)
    && (royalty.Some? ==>
          s.royaltyRecipient.Some? && PaidOnlyBy(ts, taken, ToRoyaltyRecipient(p, s, buyer), royalty.value))
  }

  ghost predicate FeePaid(ts: seq<Transfer>, taken: set<nat>, p: Sale, s: Split, buyer: string, fee: Option<nat>) {
    && (fee.Some? <==> s.feeUnits > 0)
    && (fee.Some? ==> PaidOnlyBy(ts, taken, ToFeeAccount(p, s, buyer), fee.value))
  }

  /** The first payment that is missing or ambiguous, in the order seller, royalty, fee. */
  ghost predicate Unpaid(ts: seq<Transfer>, taken: set<nat>, p: Sale, s: Split, reason: string) {
    || NotPaid(ts, taken, ToSeller(p, s), reason)
    || exists seller: nat :: PaidOnlyBy(ts, taken, ToSeller(p, s), seller) &&
         UnpaidByBuyer(ts, taken + {seller}, p, s, ts[seller].from, reason)
  }

  ghost predicate UnpaidByBuyer(ts: seq<Transfer>, taken: set<nat>, p: Sale, s: Split, buyer: string, reason: string) {
    || (s.royaltyUnits > 0 && s.royaltyRecipient.Some? && NotPaid(ts, taken, ToRoyaltyRecipient(p, s, buyer), reason))
    || exists royalty :: RoyaltyPaid(ts, taken, p, s, buyer, royalty) &&
         s.feeUnits > 0 && NotPaid(ts, Taking(taken, royalty), ToFeeAccount(p, s, buyer), reason)
  }

  // ---- One search ----

  function LegOf(d: Payment): Leg { Leg(d.sender, d.to, Some(d.units), Some(d.currency), d.memo) }

  lemma SearchFinds(ts: seq<Transfer>, taken: set<nat>, d: Payment)
    ensures forall i: nat :: FindUnique(ts, taken, LegOf(d)) == Ok(i) <==> PaidOnlyBy(ts, taken, d, i)
    ensures forall e :: FindUnique(ts, taken, LegOf(d)) == Reject(e) <==> NotPaid(ts, taken, d, e)
  {
    var leg := LegOf(d);
    assert forall i: nat :: Candidate(ts, taken, leg, i) <==> PaidBy(ts, taken, d, i);
    var c := Candidates(ts, taken, leg, |ts|);
    var r := FindUnique(ts, taken, leg);
    assert forall i: nat :: i in c <==> PaidBy(ts, taken, d, i);
    if |c| == 0 {
    } else if |c| == 1 {
      assert c[0] in c && forall j :: j in c ==> j == c[0];
    } else {
      assert c[0] in c && c[1] in c && c[0] != c[1];
      assert PaidBy(ts, taken, d, c[0]) && PaidBy(ts, taken, d, c[1]);
    }
  }

  lemma SearchEnds(ts: seq<Transfer>, taken: set<nat>, d: Payment)
    ensures (exists i: nat :: PaidOnlyBy(ts, taken, d, i)) || exists e :: NotPaid(ts, taken, d, e)
    ensures forall i: nat, e :: !(PaidOnlyBy(ts, taken, d, i) && NotPaid(ts, taken, d, e))
    ensures forall i: nat, j: nat :: PaidOnlyBy(ts, taken, d, i) && PaidOnlyBy(ts, taken, d, j) ==> i == j
  {
    hide PaidOnlyBy, NotPaid, FindUnique;
    SearchFinds(ts, taken, d);
    var r := FindUnique(ts, taken, LegOf(d));
    if r.Ok? { assert r == Ok(r.value); } else { assert r == Reject(r.reason); }
  }

  // ---- The search for a whole sale ----

  lemma LegsArePayments(p: Sale, s: Split, buyer: string)
    ensures SellerLeg(p, s) == LegOf(ToSeller(p, s))
    ensures s.royaltyUnits > 0 && s.royaltyRecipient.Some? && s.royaltyRecipient.value != "" ==>
      RoyaltyLeg(p, s, buyer) == [LegOf(ToRoyaltyRecipient(p, s, buyer))]
    ensures s.royaltyUnits <= 0 ==> RoyaltyLeg(p, s, buyer) == []
    ensures FeeLeg(p, s, buyer) == if s.feeUnits > 0 then [LegOf(ToFeeAccount(p, s, buyer))] else []
  {}

  /** Looking for at most one more payment. */
  lemma MatchOne(ts: seq<Transfer>, taken: set<nat>, d: Payment)
    ensures forall i: nat :: PaidOnlyBy(ts, taken, d, i) ==> MatchLegs(ts, taken, [LegOf(d)]) == Ok([i])
    ensures forall e :: NotPaid(ts, taken, d, e) ==> MatchLegs(ts, taken, [LegOf(d)]) == Reject(e)
    ensures MatchLegs(ts, taken, []) == Ok([])
  {
    hide FindUnique, PaidOnlyBy, NotPaid;
    SearchFinds(ts, taken, d);
    var legs := [LegOf(d)];
    assert legs[1..] == [] && forall i: nat :: [i] + [] == [i];
  }

  lemma TakingOne(taken: set<nat>, i: Option<nat>)
    ensures taken + SetOf(One(i)) == Taking(taken, i)
  {}

  lemma RoyaltyMatched(ts: seq<Transfer>, taken: set<nat>, p: Sale, s: Split, buyer: string)
    requires SplitsInto(p, s)
    ensures forall royalty :: RoyaltyPaid(ts, taken, p, s, buyer, royalty) ==>
      MatchLegs(ts, taken, RoyaltyLeg(p, s, buyer)) == Ok(One(royalty))
    ensures s.royaltyUnits > 0 ==> s.royaltyRecipient.Some?
    ensures s.royaltyUnits > 0 ==> forall e :: NotPaid(ts, taken, ToRoyaltyRecipient(p, s, buyer), e) ==>
      MatchLegs(ts, taken, RoyaltyLeg(p, s, buyer)) == Reject(e)
  {
    hide MatchLegs, PaidOnlyBy, NotPaid, CalculateSplit, RoyaltyLeg, FeeLeg;
    SplitConserves(p.totalPrice, p.royaltyPct, p.royaltyRecipient, p.seller, p.feeAccount);
    LegsArePayments(p, s, buyer);
    if s.royaltyUnits > 0 {
      MatchOne(ts, taken, ToRoyaltyRecipient(p, s, buyer));
    } else {
      MatchOne(ts, taken, ToSeller(p, s));
    }
  }

  lemma FeeMatched(ts: seq<Transfer>, taken: set<nat>, p: Sale, s: Split, buyer: string)
    ensures forall fee :: FeePaid(ts, taken, p, s, buyer, fee) ==> MatchLegs(ts, taken, FeeLeg(p, s, buyer)) == Ok(One(fee))
    ensures s.feeUnits > 0 ==> forall e :: NotPaid(ts, taken, ToFeeAccount(p, s, buyer), e) ==>
      MatchLegs(ts, taken, FeeLeg(p, s, buyer)) == Reject(e)
  {
    hide MatchLegs, PaidOnlyBy, NotPaid, RoyaltyLeg, FeeLeg;
    LegsArePayments(p, s, buyer);
    MatchOne(ts, taken, ToFeeAccount(p, s, buyer));
  }

  /** Paid in full by the buyer. */
  lemma BuyerMatched(ts: seq<Transfer>, taken: set<nat>, p: Sale, s: Split, buyer: string, royalty: Option<nat>, fee: Option<nat>)
    requires SplitsInto(p, s) && RoyaltyPaid(ts, taken, p, s, buyer, royalty)
    requires FeePaid(ts, Taking(taken, royalty), p, s, buyer, fee)
    ensures MatchLegs(ts, taken, BuyerLegs(p, s, buyer)) == Ok(One(royalty) + One(fee))
  {
    hide MatchLegs, PaidOnlyBy, RoyaltyPaid, FeePaid, RoyaltyLeg, FeeLeg, SplitsInto;
    RoyaltyMatched(ts, taken, p, s, buyer);
    FeeMatched(ts, Taking(taken, royalty), p, s, buyer);
    TakingOne(taken, royalty);
    MatchLegsSplit(ts, taken, RoyaltyLeg(p, s, buyer), FeeLeg(p, s, buyer));
  }

  lemma BuyerNotMatched(ts: seq<Transfer>, taken: set<nat>, p: Sale, s: Split, buyer: string, reason: string)
    requires SplitsInto(p, s) && UnpaidByBuyer(ts, taken, p, s, buyer, reason)
    ensures MatchLegs(ts, taken, BuyerLegs(p, s, buyer)) == Reject(reason)
  {
    hide MatchLegs, PaidOnlyBy, NotPaid, RoyaltyPaid, RoyaltyLeg, FeeLeg, SplitsInto;
    RoyaltyMatched(ts, taken, p, s, buyer);
    MatchLegsSplit(ts, taken, RoyaltyLeg(p, s, buyer), FeeLeg(p, s, buyer));
    if !(s.royaltyUnits > 0 && s.royaltyRecipient.Some? && NotPaid(ts, taken, ToRoyaltyRecipient(p, s, buyer), reason)) {
      var royalty :| RoyaltyPaid(ts, taken, p, s, buyer, royalty) &&
        s.feeUnits > 0 && NotPaid(ts, Taking(taken, royalty), ToFeeAccount(p, s, buyer), reason);
      FeeMatched(ts, Taking(taken, royalty), p, s, buyer);
      TakingOne(taken, royalty);
    }
  }

  /** The buyer has paid or has not. */
  lemma BuyerDecided(ts: seq<Transfer>, taken: set<nat>, p: Sale, s: Split, buyer: string)
    requires SplitsInto(p, s)
    ensures || (exists royalty, fee :: RoyaltyPaid(ts, taken, p, s, buyer, royalty)
                                       && FeePaid(ts, Taking(taken, royalty), p, s, buyer, fee))
            || exists reason :: UnpaidByBuyer(ts, taken, p, s, buyer, reason)
  {
    hide PaidOnlyBy, NotPaid, SplitsInto, FindUnique;
    RoyaltyMatched(ts, taken, p, s, buyer);
    if s.royaltyUnits > 0 {
      SearchEnds(ts, taken, ToRoyaltyRecipient(p, s, buyer));
      if r: nat :| PaidOnlyBy(ts, taken, ToRoyaltyRecipient(p, s, buyer), r) {
        FeeDecided(ts, taken, p, s, buyer, Some(r));
      } else {
        var e :| NotPaid(ts, taken, ToRoyaltyRecipient(p, s, buyer), e);
        assert UnpaidByBuyer(ts, taken, p, s, buyer, e);
      }
    } else {
      FeeDecided(ts, taken, p, s, buyer, None);
    }
  }

  lemma FeeDecided(ts: seq<Transfer>, taken: set<nat>, p: Sale, s: Split, buyer: string, royalty: Option<nat>)
    requires RoyaltyPaid(ts, taken, p, s, buyer, royalty)
    ensures (exists fee :: FeePaid(ts, Taking(taken, royalty), p, s, buyer, fee))
            || exists reason :: UnpaidByBuyer(ts, taken, p, s, buyer, reason)
  {
    hide PaidOnlyBy, NotPaid, RoyaltyPaid;
    if s.feeUnits > 0 {
      SearchEnds(ts, Taking(taken, royalty), ToFeeAccount(p, s, buyer));
      if f: nat :| PaidOnlyBy(ts, Taking(taken, royalty), ToFeeAccount(p, s, buyer), f) {
        assert FeePaid(ts, Taking(taken, royalty), p, s, buyer, Some(f));
      } else {
        var e :| NotPaid(ts, Taking(taken, royalty), ToFeeAccount(p, s, buyer), e);
        assert UnpaidByBuyer(ts, taken, p, s, buyer, e);
      }
    } else {
      assert FeePaid(ts, Taking(taken, royalty), p, s, buyer, None);
    }
  }

  lemma PaidIsPlanned(ts: seq<Transfer>, taken: set<nat>, p: Sale, s: Split, seller: nat, royalty: Option<nat>, fee: Option<nat>)
    requires Paid(ts, taken, p, s, seller, royalty, fee)
    ensures Plan(ts, taken, p) == Ok(Match(s, ts[seller].from, [seller] + One(royalty) + One(fee)))
  {
    hide MatchLegs, PaidOnlyBy, RoyaltyPaid, FeePaid, FindUnique, CalculateSplit, SellerLeg, BuyerLegs;
    SplitConserves(p.totalPrice, p.royaltyPct, p.royaltyRecipient, p.seller, p.feeAccount);
    HasTransfer(ts, taken, ToSeller(p, s), seller);
    LegsArePayments(p, s, ts[seller].from);
    SearchFinds(ts, taken, ToSeller(p, s));
    BuyerMatched(ts, taken + {seller}, p, s, ts[seller].from, royalty, fee);
    assert [seller] + (One(royalty) + One(fee)) == [seller] + One(royalty) + One(fee);
  }

  lemma HasTransfer(ts: seq<Transfer>, taken: set<nat>, d: Payment, i: nat)
    requires PaidOnlyBy(ts, taken, d, i)
    ensures i < |ts|
  {}

  lemma UnpaidIsRejected(ts: seq<Transfer>, taken: set<nat>, p: Sale, s: Split, reason: string)
    requires ts != [] && SplitsInto(p, s) && Unpaid(ts, taken, p, s, reason)
    ensures Plan(ts, taken, p) == Reject(reason)
  {
    hide MatchLegs, PaidOnlyBy, NotPaid, UnpaidByBuyer, FindUnique, CalculateSplit, SellerLeg, BuyerLegs;
    SplitConserves(p.totalPrice, p.royaltyPct, p.royaltyRecipient, p.seller, p.feeAccount);
    LegsArePayments(p, s, "");
    SearchFinds(ts, taken, ToSeller(p, s));
    if !NotPaid(ts, taken, ToSeller(p, s), reason) {
      var seller: nat :| PaidOnlyBy(ts, taken, ToSeller(p, s), seller) &&
        UnpaidByBuyer(ts, taken + {seller}, p, s, ts[seller].from, reason);
      BuyerNotMatched(ts, taken + {seller}, p, s, ts[seller].from, reason);
    }
  }

  lemma PaidOrNot(ts: seq<Transfer>, taken: set<nat>, p: Sale, s: Split)
    requires SplitsInto(p, s)
    ensures (exists seller, royalty, fee :: Paid(ts, taken, p, s, seller, royalty, fee))
            || exists reason :: Unpaid(ts, taken, p, s, reason)
  {
    hide PaidOnlyBy, NotPaid, RoyaltyPaid, FeePaid, UnpaidByBuyer, SplitsInto;
    SearchEnds(ts, taken, ToSeller(p, s));
    if seller: nat :| PaidOnlyBy(ts, taken, ToSeller(p, s), seller) {
      HasTransfer(ts, taken, ToSeller(p, s), seller);
      BuyerDecided(ts, taken + {seller}, p, s, ts[seller].from);
      if royalty, fee :| RoyaltyPaid(ts, taken + {seller}, p, s, ts[seller].from, royalty)
                         && FeePaid(ts, Taking(taken + {seller}, royalty), p, s, ts[seller].from, fee) {
        assert Paid(ts, taken, p, s, seller, royalty, fee);
      } else {
        var e :| UnpaidByBuyer(ts, taken + {seller}, p, s, ts[seller].from, e);
        assert Unpaid(ts, taken, p, s, e);
      }
    } else {
      var e :| NotPaid(ts, taken, ToSeller(p, s), e);
      assert Unpaid(ts, taken, p, s, e);
    }
  }

  // ---- Main results ----

  /** A sale is verified if and only if its price can be split and each share that is due is paid by exactly
      one free transfer with the right recipient, amount, currency and memo, royalty and fee by whoever paid
      the seller; and then it claims these transfers. */
  lemma VerifiedIffPaid(ts: seq<Transfer>, taken: set<nat>, p: Sale, m: Match)
    ensures Plan(ts, taken, p) == Ok(m) <==>
      exists seller: nat, royalty, fee :: Paid(ts, taken, p, m.split, seller, royalty, fee)
        && m.buyer == ts[seller].from && m.indices == [seller] + One(royalty) + One(fee)
  {
    hide Plan, Unpaid, RoyaltyPaid, FeePaid, SplitsInto;
    if Plan(ts, taken, p) == Ok(m) {
      PlannedSplits(ts, taken, p);
      PaidOrNot(ts, taken, p, m.split);
      if reason :| Unpaid(ts, taken, p, m.split, reason) {
        UnpaidIsRejected(ts, taken, p, m.split, reason);
      } else {
        var seller, royalty, fee :| Paid(ts, taken, p, m.split, seller, royalty, fee);
        PaidIsPlanned(ts, taken, p, m.split, seller, royalty, fee);
      }
    }
    forall seller: nat, royalty, fee | Paid(ts, taken, p, m.split, seller, royalty, fee)
      ensures Plan(ts, taken, p) == Ok(Match(m.split, ts[seller].from, [seller] + One(royalty) + One(fee)))
    {
      PaidIsPlanned(ts, taken, p, m.split, seller, royalty, fee);
    }
  }

  lemma PlannedSplits(ts: seq<Transfer>, taken: set<nat>, p: Sale)
    ensures Plan(ts, taken, p).Ok? ==> ts != [] && SplitsInto(p, Plan(ts, taken, p).value.split)
    ensures ts == [] ==> Plan(ts, taken, p) == Reject("No transfers found. Payment split is required.")
    ensures ts != [] && p.Split().Error? ==> Plan(ts, taken, p) == Fault(p.Split().message)
    ensures Plan(ts, taken, p).Fault? ==> ts != [] && p.Split().Error?
  {
    hide MatchLegs, FindUnique, CalculateSplit;
  }

  /** It is refused if and only if there are no transfers at all, or the price can be split and a share that
      is due is missing or ambiguous; the first such share, seller before royalty before fee, is the reason. */
  lemma RefusedIffUnpaid(ts: seq<Transfer>, taken: set<nat>, p: Sale, reason: string)
    ensures Plan(ts, taken, p) == Reject(reason) <==>
      || (ts == [] && reason == "No transfers found. Payment split is required.")
      || (ts != [] && exists s :: SplitsInto(p, s) && Unpaid(ts, taken, p, s, reason))
  {
    hide Plan, Paid, Unpaid, CalculateSplit;
    PlannedSplits(ts, taken, p);
    if ts != [] && p.Split().Done? {
      var s := p.Split().value;
      PaidOrNot(ts, taken, p, s);
      if seller, royalty, fee :| Paid(ts, taken, p, s, seller, royalty, fee) {
        PaidIsPlanned(ts, taken, p, s, seller, royalty, fee);
        forall e | Unpaid(ts, taken, p, s, e) ensures false { UnpaidIsRejected(ts, taken, p, s, e); }
      } else {
        var e :| Unpaid(ts, taken, p, s, e);
        forall e | Unpaid(ts, taken, p, s, e) ensures Plan(ts, taken, p) == Reject(e) { UnpaidIsRejected(ts, taken, p, s, e); }
      }
    }
  }

  /** An internal error if and only if there are transfers but the price cannot be split. */
  lemma FaultIffUnsplittable(ts: seq<Transfer>, taken: set<nat>, p: Sale)
    ensures Plan(ts, taken, p).Fault? <==>
      ts != [] && !SplitInRange(p.totalPrice, p.royaltyPct, p.royaltyRecipient, p.seller, p.feeAccount)
  {
    hide Plan, CalculateSplit;
    PlannedSplits(ts, taken, p);
    SplitConserves(p.totalPrice, p.royaltyPct, p.royaltyRecipient, p.seller, p.feeAccount);
  }

  // ---- Who receives what ----

  /** The transfers with every amount that goes to somebody else struck out. */
  function OnlyTo(ts: seq<Transfer>, who: string): seq<Transfer> {
    seq(|ts|, i requires 0 <= i < |ts| => if ts[i].to == who then ts[i] else ts[i].(amount := 0))
  }

  /** Coins of one currency that the transfers at `idx` carry to an account. */
  function Received(ts: seq<Transfer>, who: string, currency: string, idx: set<nat>): int {
    Carried(OnlyTo(ts, who), currency, idx)
  }

  lemma ReceivedOne(ts: seq<Transfer>, who: string, currency: string, i: nat)
    requires i < |ts|
    ensures Received(ts, who, currency, {i}) == if ts[i].to == who && ts[i].currency == currency then ts[i].amount else 0
  {
    CarriedOne(OnlyTo(ts, who), currency, i);
  }

  lemma ReceivedMaybe(ts: seq<Transfer>, who: string, currency: string, i: Option<nat>)
    requires i.Some? ==> i.value < |ts|
    ensures Received(ts, who, currency, SetOf(One(i))) ==
      if i.Some? && ts[i.value].to == who && ts[i.value].currency == currency then ts[i.value].amount else 0
  {
    hide Carried, OnlyTo;
    if i.Some? {
      assert SetOf(One(i)) == {i.value};
      ReceivedOne(ts, who, currency, i.value);
    } else {
      assert SetOf(One(i)) == {};
      CarriedNothing(OnlyTo(ts, who), currency);
    }
  }

  lemma ReceivedInThree(ts: seq<Transfer>, who: string, currency: string, seller: nat, royalty: Option<nat>, fee: Option<nat>)
    requires royalty != Some(seller) && fee != Some(seller) && (royalty.Some? ==> royalty != fee)
    ensures Received(ts, who, currency, SetOf([seller] + One(royalty) + One(fee))) ==
      Received(ts, who, currency, {seller}) + Received(ts, who, currency, SetOf(One(royalty)))
      + Received(ts, who, currency, SetOf(One(fee)))
  {
    hide Carried, OnlyTo;
    var r, f := SetOf(One(royalty)), SetOf(One(fee));
    assert SetOf([seller] + One(royalty) + One(fee)) == {seller} + r + f;
    CarriedUnion(OnlyTo(ts, who), currency, {seller}, r);
    CarriedUnion(OnlyTo(ts, who), currency, {seller} + r, f);
  }

  /** From the claimed transfers everybody receives, in the listing's currency, exactly the shares that are
      his: the seller's, the royalty and the fee. */
  lemma EverybodyReceivesHisShare(ts: seq<Transfer>, taken: set<nat>, p: Sale, who: string)
    requires Plan(ts, taken, p).Ok?
    ensures var m := Plan(ts, taken, p).value;
      Received(ts, who, p.currency, SetOf(m.indices)) ==
        (if who == p.seller then m.split.sellerUnits else 0)
        + (if m.split.royaltyRecipient == Some(who) then m.split.royaltyUnits else 0)
        + (if who == p.feeAccount then m.split.feeUnits else 0)
  {
    hide Plan, Received, SetOf, CalculateSplit;
    var m := Plan(ts, taken, p).value;
    VerifiedIffPaid(ts, taken, p, m);
    var seller: nat, royalty, fee :| Paid(ts, taken, p, m.split, seller, royalty, fee)
        && m.buyer == ts[seller].from && m.indices == [seller] + One(royalty) + One(fee);
    SplitConserves(p.totalPrice, p.royaltyPct, p.royaltyRecipient, p.seller, p.feeAccount);
    ReceivedInThree(ts, who, p.currency, seller, royalty, fee);
    ReceivedOne(ts, who, p.currency, seller);
    ReceivedMaybe(ts, who, p.currency, royalty);
    ReceivedMaybe(ts, who, p.currency, fee);
  }
}
