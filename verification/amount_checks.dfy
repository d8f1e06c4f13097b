/** The two amount checks of the bid endpoints as written, evaluated with
    the comparison semantics of the floating-point values that Python's
    `float(...)` hands them. Every comparison with NaN is false, so neither
    "bid <= current" nor "bid < current + 50" refuses a NaN bid, and once NaN
    leads neither refuses anything. The engine's model (Bidding.AuctionRules)
    refuses non-finite amounts instead; the lemmas below relate the two. */
module AmountChecks {
  import opened AuctionData
  import Bidding

  /** A double as far as comparisons and adding 50 are concerned. */
  datatype Float = Finite(value: real) | NaN | PosInf | NegInf

  /** The double `float(...)` produced, for an amount that parsed. */
  function FromRaw(raw: RawAmount): Float
    requires !raw.Unparsable?
  {
    match raw
    case Number(x) => Finite(x)
    case NotANumber => NaN
    case Infinite(negative) => if negative then NegInf else PosInf
  }

  /** IEEE 754 `a <= b`. */
  predicate AtMost(a: Float, b: Float) {
    if a.NaN? || b.NaN? then false
    else if a.NegInf? || b.PosInf? then true
    else if a.PosInf? || b.NegInf? then false
    else a.value <= b.value
  }

  /** IEEE 754 `a < b`. */
  predicate Below(a: Float, b: Float) {
    if a.NaN? || b.NaN? then false
    else if a.PosInf? || b.NegInf? then false
    else if a.NegInf? || b.PosInf? then true
    else a.value < b.value
  }

  /** IEEE 754 `a + 50.0`. */
  function PlusIncrement(a: Float): Float {
    if a.Finite? then Finite(a.value + MIN_INCREMENT) else a
  }

  /** The amount checks as the source writes them: a bid passes when it is
      not `<= current` and not `< current + 50`. */
  predicate PassesAsWritten(current: Float, bid: Float) {
    !AtMost(bid, current) && !Below(bid, PlusIncrement(current))
  }

  /** A NaN bid passes the checks as written, whatever the leader amount. */
  lemma NaNBidPassesAsWritten(current: Float)
    ensures PassesAsWritten(current, NaN)
  {
  }

  /** Once NaN leads, every bid passes the checks as written: the leader
      amount can go from 55000 to NaN to 1. */
  lemma NaNLeaderAdmitsAnyBid(bid: Float)
    ensures PassesAsWritten(NaN, bid)
    ensures PassesAsWritten(Finite(55000.0), NaN) && PassesAsWritten(NaN, Finite(1.0))
  {
  }

  /** An infinite bid passes the checks as written, and once it leads only
      NaN passes them again. */
  lemma InfinityBidFreezesAuction(current: real, bid: Float)
    ensures PassesAsWritten(Finite(current), PosInf)
    ensures PassesAsWritten(PosInf, bid) <==> bid.NaN?
  {
  }

  /** On finite amounts the engine's rules agree with the checks as written;
      the amounts they refuse as invalid are exactly the non-finite ones,
      which the checks as written would let through (NaN, +inf) or refuse as
      too low (-inf). */
  lemma CorrectedRulesAgreeOnFiniteAmounts(p: Product, raw: RawAmount, now: Time)
    requires p.status == Active && now < p.auctionEndTime
    ensures raw.Number? ==>
      (Bidding.AuctionRules(p, raw, now).Success? <==> PassesAsWritten(Finite(p.currentHighestBid), FromRaw(raw)))
    ensures raw.NotANumber? || raw.Infinite? ==> Bidding.AuctionRules(p, raw, now).Failure?
  {
  }
}
