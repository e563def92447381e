/** The OptionsGraph component without its UI: after every edit of the leg
    list the curve and the summary are recomputed from scratch. This module
    also relates the two list edits to the payoff, and pins the curve of
    the default leg and of the initial form. */
module OptionsGraph {
  import opened Legs
  import opened Payoff
  import opened Curve
  import opened Summary

  /** The recomputation run after each change of the leg list: sample the
      curve, then summarize its payoffs. */
  method Recompute(legs: seq<Leg>) returns (curve: PayoffCurve, summary: Stats)
    ensures |curve.prices| == SampleCount && |curve.payoffs| == SampleCount
    ensures forall i :: 0 <= i < SampleCount ==> curve.prices[i] == i as real
    ensures forall i :: 0 <= i < SampleCount ==> curve.payoffs[i] == PortfolioPayoff(legs, i as real)
    ensures summary == Stats(MaxOf(curve.payoffs), MinOf(curve.payoffs), BreakEvens(curve.payoffs))
  {
    curve := CalculateData(legs);
    summary := CalculateSummary(curve.payoffs);
  }

  /** Adding the default leg adds its payoff to the portfolio at every
      price; at the limit the portfolio is unchanged. */
  lemma AddOptionPayoff(legs: seq<Leg>, price: real)
    ensures PortfolioPayoff(AddOption(legs), price)
         == PortfolioPayoff(legs, price) + (if |legs| < MaxLegs then LegPayoff(DefaultLeg, price) else 0.0)
  {
    if |legs| < MaxLegs {
      PortfolioAppend(legs, [DefaultLeg], price);
      assert [DefaultLeg][..0] == [];
    }
  }

  /** Editing one leg changes the portfolio payoff by exactly the change in
      that leg's payoff; an index outside the list changes nothing. */
  lemma HandleChangePayoff(legs: seq<Leg>, index: int, e: Edit, price: real)
    ensures 0 <= index < |legs| ==>
      PortfolioPayoff(HandleChange(legs, index, e), price)
        == PortfolioPayoff(legs, price) - LegPayoff(legs[index], price) + LegPayoff(SetField(legs[index], e), price)
    ensures !(0 <= index < |legs|) ==> PortfolioPayoff(HandleChange(legs, index, e), price) == PortfolioPayoff(legs, price)
  {
    if 0 <= index < |legs| {
      var r := HandleChange(legs, index, e);
      var before, after := legs[..index], legs[index + 1..];
      assert legs == before + [legs[index]] + after;
      assert r == before + [SetField(legs[index], e)] + after;
      PortfolioAppend(before + [legs[index]], after, price);
      PortfolioAppend(before, [legs[index]], price);
      PortfolioAppend(before + [SetField(legs[index], e)], after, price);
      PortfolioAppend(before, [SetField(legs[index], e)], price);
      SingleLeg(legs[index], price);
      SingleLeg(SetField(legs[index], e), price);
    }
  }

  /** A one-leg portfolio pays what its leg pays. */
  lemma SingleLeg(leg: Leg, price: real)
    ensures PortfolioPayoff([leg], price) == LegPayoff(leg, price)
  {
    assert [leg][..0] == [];
  }

  /** The curve of the default leg (a call struck at 100, premium 10,
      quantity 1): the worst is -10 (every price up to 100), the best is 90
      (at 200), and the only break-even index is 110, where the payoff goes
      from -1 to 0. */
  lemma DefaultCallScenario(payoffs: seq<real>)
    requires |payoffs| == SampleCount
    requires forall i :: 0 <= i < SampleCount ==> payoffs[i] == PortfolioPayoff([DefaultLeg], i as real)
    ensures MaxOf(payoffs) == 90.0 && MinOf(payoffs) == -10.0
    ensures BreakEvens(payoffs) == [110]
  {
    forall i | 0 <= i < SampleCount
      ensures payoffs[i] == if i <= 100 then -10.0 else i as real - 110.0
    {
      SingleLeg(DefaultLeg, i as real);
    }
    DefaultCurveSummary(payoffs);
  }

  /** The summary of the default leg's curve: flat at -10 up to 100, then
      rising by 1 per sample. */
  lemma DefaultCurveSummary(payoffs: seq<real>)
    requires |payoffs| == SampleCount
    requires forall i :: 0 <= i < SampleCount ==> payoffs[i] == if i <= 100 then -10.0 else i as real - 110.0
    ensures MaxOf(payoffs) == 90.0 && MinOf(payoffs) == -10.0
    ensures BreakEvens(payoffs) == [110]
  {
    assert payoffs[200] == 90.0 && payoffs[0] == -10.0;
    var r := BreakEvens(payoffs);
    BreakEvensExact(payoffs);
    forall x ensures x in r <==> x in [110] {
      if x in r {
        assert 1 <= x < SampleCount;
        assert Crosses(payoffs[x - 1], payoffs[x]);
      }
      if x == 110 {
        assert Crosses(payoffs[109], payoffs[110]);
      }
    }
    StrictlyIncreasingUnique(r, [110]);
  }

  /** The form's initial leg (a call with strike and premium left empty,
      which JavaScript arithmetic reads as 0) pays the price itself: the curve
      runs from 0 to 200 and never crosses zero. */
  lemma InitialFormScenario(payoffs: seq<real>)
    requires |payoffs| == SampleCount
    requires forall i :: 0 <= i < SampleCount ==> payoffs[i] == PortfolioPayoff(InitialLegs, i as real)
    ensures MaxOf(payoffs) == 200.0 && MinOf(payoffs) == 0.0
    ensures BreakEvens(payoffs) == []
  {
    forall i | 0 <= i < SampleCount ensures payoffs[i] == i as real {
      InitialLegPaysPrice(i as real);
    }
    PriceCurveSummary(payoffs);
  }

  /** The summary of a curve whose payoff equals the sampled price. */
  lemma PriceCurveSummary(payoffs: seq<real>)
    requires |payoffs| == SampleCount
    requires forall i :: 0 <= i < SampleCount ==> payoffs[i] == i as real
    ensures MaxOf(payoffs) == 200.0 && MinOf(payoffs) == 0.0
    ensures BreakEvens(payoffs) == []
  {
    assert payoffs[200] == 200.0 && payoffs[0] == 0.0;
    NoSignChangeNoBreakEvens(payoffs);
  }

  /** At a non-negative price the initial leg pays the price itself. */
  lemma InitialLegPaysPrice(price: real)
    requires price >= 0.0
    ensures PortfolioPayoff(InitialLegs, price) == price
  {
    SingleLeg(InitialLeg, price);
  }
}
