/** Sampling the payoff curve (calculateData): the whole prices 0..200,
    each paired with the portfolio payoff there. */
module Curve {
  import opened Legs
  import opened Payoff

  /** Highest sampled price; the loop runs from 0 to it inclusive. */
  const MaxPrice: nat := 200

  /** Number of samples on the curve. */
  const SampleCount: nat := MaxPrice + 1

  /** The two parallel arrays the chart plots. */
  datatype PayoffCurve = PayoffCurve(prices: seq<real>, payoffs: seq<real>)

  /** Walks the prices 0, 1, ..., MaxPrice in order, pushing each price and
      the portfolio payoff at that price. */
  method CalculateData(legs: seq<Leg>) returns (curve: PayoffCurve)
    ensures |curve.prices| == SampleCount && |curve.payoffs| == SampleCount
    ensures forall i :: 0 <= i < SampleCount ==> curve.prices[i] == i as real
    ensures forall i :: 0 <= i < SampleCount ==> curve.payoffs[i] == PortfolioPayoff(legs, i as real)
    ensures forall i, j :: 0 <= i < j < SampleCount ==> curve.prices[i] < curve.prices[j]
  {
    var prices: seq<real> := [];
    var payoffs: seq<real> := [];
    var i := 0;
    while i <= MaxPrice
      invariant 0 <= i <= MaxPrice + 1
      invariant |prices| == i && |payoffs| == i
      invariant forall k :: 0 <= k < i ==> prices[k] == k as real
      invariant forall k :: 0 <= k < i ==> payoffs[k] == PortfolioPayoff(legs, k as real)
    {
      prices := prices + [i as real];
      payoffs := payoffs + [PortfolioPayoff(legs, i as real)];
      i := i + 1;
    }
    curve := PayoffCurve(prices, payoffs);
  }
}
