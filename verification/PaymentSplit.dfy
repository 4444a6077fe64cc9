/** The integer payment split of a sale, in thousandths of a coin.
    (packages/protocol/src/payment.ts) */
module PaymentSplits {
  import opened Prelude

  const MIN_PRICE_UNITS := 100
  const MAX_ROYALTY_PCT: real := 50.0
  const BASIS_POINTS_DENOMINATOR := 10_000
  const PROTOCOL_FEE_BPS := 100

  /** Math.round: halves go up. */
  function Round(x: real): int { (x + 0.5).Floor }

  datatype Split = Split(
    sellerUnits: int,
    royaltyUnits: int,
    royaltyRecipient: Option<string>,
    feeUnits: int,
    totalUnits: int)

  function BasisPointsUnits(totalUnits: int, basisPoints: int): Result<int> {
    if basisPoints < 0 || basisPoints > BASIS_POINTS_DENOMINATOR then Error("basis points out of range")
    else if !SafeInteger(totalUnits * basisPoints) then Error("basis-point calculation exceeds safe integer range")
    else Done(Round((totalUnits * basisPoints) as real / BASIS_POINTS_DENOMINATOR as real))
  }

  function PercentageToBasisPoints(percentage: real): Result<int> {
    if percentage < 0.0 || percentage > 100.0 then Error("percentage must be between 0 and 100")
    else Done(Round(percentage * 100.0))
  }

  /** A royalty is due unless there is no recipient, no percentage, or the seller is the recipient. */
  predicate RoyaltyDue(royaltyPct: real, recipient: Option<string>, seller: string) {
    recipient.Some? && recipient.value != "" && royaltyPct > 0.0 && recipient.value != seller
  }

  function ComputeRoyalty(totalUnits: int, royaltyPct: real, recipient: Option<string>, seller: string): Result<int> {
    if !RoyaltyDue(royaltyPct, recipient, seller) then Done(0) else
      match PercentageToBasisPoints(royaltyPct)
      case Error(e) => Error(e)
      case Done(basisPoints) => BasisPointsUnits(totalUnits, basisPoints)
  }

  function ComputeFee(totalUnits: int, seller: string, feeAccount: string): Result<int> {
    if feeAccount == seller then Done(0) else BasisPointsUnits(totalUnits, PROTOCOL_FEE_BPS)
  }

  function CalculateSplit(
      totalUnits: int, royaltyPct: real, recipient: Option<string>, seller: string, feeAccount: string): Result<Split>
  {
    if !SafeInteger(totalUnits) then Error("totalUnits must be a safe integer")
    else if totalUnits < MIN_PRICE_UNITS then Error("totalUnits below MIN_PRICE_AMOUNT")
    else if royaltyPct < 0.0 || royaltyPct > MAX_ROYALTY_PCT then Error("royaltyPct out of range")
    else
      match ComputeFee(totalUnits, seller, feeAccount)
      case Error(e) => Error(e)
      case Done(feeUnits) =>
        match ComputeRoyalty(totalUnits, royaltyPct, recipient, seller)
        case Error(e) => Error(e)
        case Done(royaltyUnits) =>
          var sellerUnits := totalUnits - royaltyUnits - feeUnits;
          if sellerUnits < 0 then Error("Payment split produced a negative seller amount") else
            Done(Split(
                   sellerUnits, royaltyUnits,
                   if RoyaltyDue(royaltyPct, recipient, seller) then recipient else None,
                   feeUnits, totalUnits))
  }

  /** The products that must stay exact; everything else a listing may say is legal. */
  predicate SplitInRange(
      totalUnits: int, royaltyPct: real, recipient: Option<string>, seller: string, feeAccount: string)
  {
    && MIN_PRICE_UNITS <= totalUnits <= MAX_SAFE_INTEGER
    && 0.0 <= royaltyPct <= MAX_ROYALTY_PCT
    && (feeAccount != seller ==> totalUnits * PROTOCOL_FEE_BPS <= MAX_SAFE_INTEGER)
    && (RoyaltyDue(royaltyPct, recipient, seller) ==> totalUnits * Round(royaltyPct * 100.0) <= MAX_SAFE_INTEGER)
  }

  /** A share is rounded to the nearest unit. */
  lemma RoundedShare(totalUnits: nat, basisPoints: nat)
    requires basisPoints <= BASIS_POINTS_DENOMINATOR && SafeInteger(totalUnits * basisPoints)
    ensures BasisPointsUnits(totalUnits, basisPoints).Done?
    ensures var units := BasisPointsUnits(totalUnits, basisPoints).value;
      -BASIS_POINTS_DENOMINATOR <= 2 * (totalUnits * basisPoints - BASIS_POINTS_DENOMINATOR * units) <= BASIS_POINTS_DENOMINATOR
  {
    RoundedQuotient(totalUnits * basisPoints);
  }

  lemma RoundedQuotient(product: nat)
    ensures var units := Round(product as real / BASIS_POINTS_DENOMINATOR as real);
      -BASIS_POINTS_DENOMINATOR <= 2 * (product - BASIS_POINTS_DENOMINATOR * units) <= BASIS_POINTS_DENOMINATOR
  {
    var x := product as real / BASIS_POINTS_DENOMINATOR as real;
    var units := Round(x);
    assert x * 10_000.0 == product as real;
    assert units as real <= x + 0.5 < units as real + 1.0;
    assert (2 * BASIS_POINTS_DENOMINATOR * units) as real <= (2 * product) as real + 10_000.0;
  }

  lemma FeeShare(totalUnits: nat, seller: string, feeAccount: string)
    requires totalUnits >= MIN_PRICE_UNITS
    ensures var r := ComputeFee(totalUnits, seller, feeAccount);
      && (r.Done? <==> feeAccount == seller || totalUnits * PROTOCOL_FEE_BPS <= MAX_SAFE_INTEGER)
      && (r.Done? && feeAccount == seller ==> r.value == 0)
      && (r.Done? && feeAccount != seller ==> r.value >= 1 && -50 <= totalUnits - 100 * r.value <= 50)
  {
    if totalUnits * PROTOCOL_FEE_BPS <= MAX_SAFE_INTEGER { RoundedShare(totalUnits, PROTOCOL_FEE_BPS); }
  }

  lemma RoyaltyShare(totalUnits: nat, royaltyPct: real, recipient: Option<string>, seller: string)
    requires 0.0 <= royaltyPct <= MAX_ROYALTY_PCT
    ensures var r := ComputeRoyalty(totalUnits, royaltyPct, recipient, seller);
      var basisPoints := Round(royaltyPct * 100.0);
      && (r.Done? <==>
            !RoyaltyDue(royaltyPct, recipient, seller) || totalUnits * basisPoints <= MAX_SAFE_INTEGER)
      && (r.Done? ==> 0 <= 2 * r.value <= totalUnits + 1)
  {
    var basisPoints := Round(royaltyPct * 100.0);
    assert 0 <= basisPoints <= 5_000;
    assert 0 <= totalUnits * basisPoints <= totalUnits * 5_000;
    if totalUnits * basisPoints <= MAX_SAFE_INTEGER { RoundedShare(totalUnits, basisPoints); }
  }

  /** The split succeeds exactly for in-range listings. It then conserves the price to the last unit,
      always leaves the seller something, and charges 1% rounded to the nearest unit. The range says
      nothing about the seller's share, so the throw on a negative share is never reached. */
  lemma SplitConserves(
      totalUnits: int, royaltyPct: real, recipient: Option<string>, seller: string, feeAccount: string)
    ensures var r := CalculateSplit(totalUnits, royaltyPct, recipient, seller, feeAccount);
      && (r.Done? <==> SplitInRange(totalUnits, royaltyPct, recipient, seller, feeAccount))
      && (r.Done? ==>
            var s := r.value;
            && s.sellerUnits + s.royaltyUnits + s.feeUnits == totalUnits == s.totalUnits
            && s.sellerUnits > 0 && s.royaltyUnits >= 0
            && (feeAccount == seller ==> s.feeUnits == 0)
            && (feeAccount != seller ==> s.feeUnits >= 1 && -50 <= totalUnits - 100 * s.feeUnits <= 50)
            && (s.royaltyRecipient.Some? <==> RoyaltyDue(royaltyPct, recipient, seller))
            && (s.royaltyRecipient.None? ==> s.royaltyUnits == 0)
            && (s.royaltyRecipient.Some? ==>
                  s.royaltyRecipient == recipient && 2 * s.royaltyUnits <= totalUnits + 1))
  {
    if MIN_PRICE_UNITS <= totalUnits && 0.0 <= royaltyPct <= MAX_ROYALTY_PCT {
      FeeShare(totalUnits, seller, feeAccount);
      RoyaltyShare(totalUnits, royaltyPct, recipient, seller);
    }
  }

  /** `n` is `x` rounded to the nearest whole number, halves up. */
  predicate Nearest(n: int, x: real) { n as real - 0.5 <= x < n as real + 0.5 }

  lemma RoundIsNearest(x: real)
    ensures forall n :: Nearest(n, x) <==> n == Round(x)
  {
    assert (x + 0.5).Floor as real <= x + 0.5 < (x + 0.5).Floor as real + 1.0;
  }

  lemma QuotientIsNearest(product: int)
    ensures Nearest(Round(product as real / BASIS_POINTS_DENOMINATOR as real), product as real / 10_000.0)
  {
    RoundIsNearest(product as real / 10_000.0);
  }

  /** Each share to the last unit: the royalty is the price times the percentage in whole basis points, the
      fee one per cent of the price, both rounded to the nearest unit with halves up, and nothing is paid
      when the recipient would be the seller. */
  lemma SharesAreNearest(
      totalUnits: int, royaltyPct: real, recipient: Option<string>, seller: string, feeAccount: string)
    requires CalculateSplit(totalUnits, royaltyPct, recipient, seller, feeAccount).Done?
    ensures var s := CalculateSplit(totalUnits, royaltyPct, recipient, seller, feeAccount).value;
      && (if recipient.Some? && recipient.value != "" && recipient.value != seller && royaltyPct > 0.0 then
            && s.royaltyRecipient == recipient
            && forall points: int :: Nearest(points, 100.0 * royaltyPct) ==>
                 Nearest(s.royaltyUnits, (totalUnits * points) as real / 10_000.0)
          else s.royaltyUnits == 0 && s.royaltyRecipient == None)
      && (if feeAccount != seller then Nearest(s.feeUnits, (totalUnits * 100) as real / 10_000.0) else s.feeUnits == 0)
  {
    hide Round, Nearest;
    var basisPoints := Round(royaltyPct * 100.0);
    RoundIsNearest(royaltyPct * 100.0);
    QuotientIsNearest(totalUnits * basisPoints);
    QuotientIsNearest(totalUnits * PROTOCOL_FEE_BPS);
  }
}
