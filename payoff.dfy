/** Payoff at expiration: of one leg, and of the whole list of legs (the
    `reduce` fold of calculatePayoff). */
module Payoff {
  import opened Legs

  /** How far the option is in the money at `price`, before it is floored at 0. */
  function Moneyness(kind: Kind, strike: real, price: real): real
  {
    match kind
    case Call => price - strike
    case Put => strike - price
  }

  /** Intrinsic value: max(0, price - strike) for a call, max(0, strike - price)
      for a put. */
  function Intrinsic(kind: Kind, strike: real, price: real): (v: real)
    ensures v >= 0.0 && v >= Moneyness(kind, strike, price)
    ensures v == 0.0 || v == Moneyness(kind, strike, price)
  {
    var m := Moneyness(kind, strike, price);
    if 0.0 < m then m else 0.0
  }

  /** Premium paid for a leg: what a long leg loses at worst. */
  function Outlay(leg: Leg): real
  {
    leg.quantity * leg.premium
  }

  /** Net payoff of one leg: quantity * (intrinsic - premium). A leg of
      quantity 0 is flat. */
  function LegPayoff(leg: Leg, price: real): (r: real)
    ensures leg.quantity == 0.0 ==> r == 0.0
  {
    leg.quantity * (Intrinsic(leg.kind, leg.strike, price) - leg.premium)
  }

  /** A long leg never loses more than its outlay. */
  lemma LegLossBounded(leg: Leg, price: real)
    requires leg.quantity >= 0.0
    ensures LegPayoff(leg, price) >= -Outlay(leg)
  {
    var v := Intrinsic(leg.kind, leg.strike, price);
    assert leg.quantity * (v - leg.premium) == leg.quantity * v - leg.quantity * leg.premium;
    assert leg.quantity * v >= 0.0;
  }

  /** Predicate: every leg is long or flat (the UI's default quantity is 1). */
  predicate AllLong(legs: seq<Leg>)
  {
    forall j :: 0 <= j < |legs| ==> legs[j].quantity >= 0.0
  }

  /** Sum of the outlays of all legs. */
  function TotalOutlay(legs: seq<Leg>): real
  {
    if legs == [] then 0.0 else TotalOutlay(legs[..|legs| - 1]) + Outlay(legs[|legs| - 1])
  }

  /** Portfolio payoff: the left fold, from 0, of the legs' payoffs. An empty
      list is flat at 0. */
  function PortfolioPayoff(legs: seq<Leg>, price: real): (r: real)
    ensures legs == [] ==> r == 0.0
  {
    if legs == [] then 0.0
    else PortfolioPayoff(legs[..|legs| - 1], price) + LegPayoff(legs[|legs| - 1], price)
  }

  /** A portfolio of long legs never loses more than its total outlay. */
  lemma {:induction false} PortfolioLossBounded(legs: seq<Leg>, price: real)
    requires AllLong(legs)
    ensures PortfolioPayoff(legs, price) >= -TotalOutlay(legs)
    decreases |legs|
  {
    if legs != [] {
      var front := legs[..|legs| - 1];
      assert AllLong(front) by {
        forall j | 0 <= j < |front| ensures front[j].quantity >= 0.0 {
          assert front[j] == legs[j];
        }
      }
      PortfolioLossBounded(front, price);
      LegLossBounded(legs[|legs| - 1], price);
    }
  }

  /** The payoff of a concatenation is the sum of the payoffs of its parts. */
  lemma {:induction false} PortfolioAppend(a: seq<Leg>, b: seq<Leg>, price: real)
    ensures PortfolioPayoff(a + b, price) == PortfolioPayoff(a, price) + PortfolioPayoff(b, price)
    decreases |b|
  {
    if b != [] {
      var last := b[|b| - 1];
      var front := b[..|b| - 1];
      assert (a + b)[..|a + b| - 1] == a + front;
      assert (a + b)[|a + b| - 1] == last;
      PortfolioAppend(a, front, price);
    } else {
      assert a + b == a;
    }
  }

  /** Payoff of a call leg: the premium is lost up to the strike, and the leg
      gains quantity per unit of price above it. */
  lemma CallLegShape(leg: Leg, price: real)
    requires leg.kind == Call
    ensures price <= leg.strike ==> LegPayoff(leg, price) == -Outlay(leg)
    ensures price >= leg.strike ==> LegPayoff(leg, price) == leg.quantity * (price - leg.strike - leg.premium)
  {
  }

  /** Payoff of a put leg: the premium is lost from the strike up, and the
      leg gains quantity per unit of price below it. */
  lemma PutLegShape(leg: Leg, price: real)
    requires leg.kind == Put
    ensures price >= leg.strike ==> LegPayoff(leg, price) == -Outlay(leg)
    ensures price <= leg.strike ==> LegPayoff(leg, price) == leg.quantity * (leg.strike - price - leg.premium)
  {
  }

  /** A call breaks even at strike + premium, a put at strike - premium. */
  lemma LegBreakEven(leg: Leg)
    requires leg.premium >= 0.0
    ensures leg.kind == Call ==> LegPayoff(leg, leg.strike + leg.premium) == 0.0
    ensures leg.kind == Put ==> LegPayoff(leg, leg.strike - leg.premium) == 0.0
  {
  }

  /** Above the strike, a long call's payoff rises strictly with the price. */
  lemma CallLegStrictlyIncreasing(leg: Leg, p1: real, p2: real)
    requires leg.kind == Call && leg.quantity > 0.0
    requires leg.strike <= p1 < p2
    ensures LegPayoff(leg, p1) < LegPayoff(leg, p2)
  {
    var d1 := p1 - leg.strike - leg.premium;
    var d2 := p2 - leg.strike - leg.premium;
    assert leg.quantity * d2 - leg.quantity * d1 == leg.quantity * (d2 - d1);
  }

  /** Monotonicity of a long leg: a call's payoff never falls as the price
      rises, a put's never rises. */
  lemma LongLegMonotone(leg: Leg, p1: real, p2: real)
    requires leg.quantity >= 0.0 && p1 <= p2
    ensures leg.kind == Call ==> LegPayoff(leg, p1) <= LegPayoff(leg, p2)
    ensures leg.kind == Put ==> LegPayoff(leg, p1) >= LegPayoff(leg, p2)
  {
    var v1 := Intrinsic(leg.kind, leg.strike, p1);
    var v2 := Intrinsic(leg.kind, leg.strike, p2);
    var q := leg.quantity;
    assert q * (v2 - leg.premium) - q * (v1 - leg.premium) == q * (v2 - v1);
    if leg.kind == Call {
      assert v1 <= v2;
    } else {
      assert v2 <= v1;
      assert q * (v1 - v2) >= 0.0;
    }
  }

  /** Predicate: every leg is a long (or flat) call. */
  predicate AllLongCalls(legs: seq<Leg>)
  {
    forall j :: 0 <= j < |legs| ==> legs[j].kind == Call && legs[j].quantity >= 0.0
  }

  /** A portfolio of long calls never loses value as the price rises. */
  lemma {:induction false} LongCallsMonotone(legs: seq<Leg>, p1: real, p2: real)
    requires AllLongCalls(legs) && p1 <= p2
    ensures PortfolioPayoff(legs, p1) <= PortfolioPayoff(legs, p2)
    decreases |legs|
  {
    if legs != [] {
      var front := legs[..|legs| - 1];
      assert AllLongCalls(front) by {
        forall j | 0 <= j < |front| ensures front[j].kind == Call && front[j].quantity >= 0.0 {
          assert front[j] == legs[j];
        }
      }
      LongCallsMonotone(front, p1, p2);
      LongLegMonotone(legs[|legs| - 1], p1, p2);
    }
  }
}
