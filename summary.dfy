/** The summary under the chart (calculateSummary): largest and smallest
    payoff, and the indices at which the payoff changes sign between two
    neighbouring samples. */
module Summary {

  /** What the page shows under the chart. */
  datatype Stats = Stats(maxProfit: real, maxLoss: real, breakEvenPoints: seq<nat>)

  /** Math.max over a non-empty list: a member of the list that no element
      exceeds. */
  function MaxOf(s: seq<real>): (m: real)
    requires |s| > 0
    ensures m in s
    ensures forall k :: 0 <= k < |s| ==> s[k] <= m
  {
    if |s| == 1 then s[0]
    else
      var rest := MaxOf(s[..|s| - 1]);
      if s[|s| - 1] > rest then s[|s| - 1] else rest
  }

  /** Math.min over a non-empty list: a member of the list that no element
      is below. */
  function MinOf(s: seq<real>): (m: real)
    requires |s| > 0
    ensures m in s
    ensures forall k :: 0 <= k < |s| ==> m <= s[k]
  {
    if |s| == 1 then s[0]
    else
      var rest := MinOf(s[..|s| - 1]);
      if s[|s| - 1] < rest then s[|s| - 1] else rest
  }

  /** The crossing test of calculateSummary in OptionsGraph.jsx. Zero counts as non-negative on both sides,
      so it holds exactly when one sample is negative and the other is not. */
  predicate Crosses(prev: real, cur: real)
    ensures Crosses(prev, cur) <==> ((prev < 0.0) != (cur < 0.0))
  {
    (prev < 0.0 && cur >= 0.0) || (prev >= 0.0 && cur < 0.0)
  }

  /** Predicate: the sequence of indices is strictly increasing. */
  predicate StrictlyIncreasing(r: seq<nat>)
  {
    forall j, k :: 0 <= j < k < |r| ==> r[j] < r[k]
  }

  /** The break-even indices of a payoff list, in the order the scan over
      adjacent pairs records them: strictly increasing and each between 1
      and |s| - 1. */
  function BreakEvens(s: seq<real>): (r: seq<nat>)
    ensures StrictlyIncreasing(r)
    ensures forall k :: 0 <= k < |r| ==> 1 <= r[k] < |s|
  {
    if |s| < 2 then []
    else BreakEvens(s[..|s| - 1]) + (if Crosses(s[|s| - 2], s[|s| - 1]) then [|s| - 1] else [])
  }

  /** Index i is a break-even point exactly when the pair (s[i-1], s[i])
      crosses zero. */
  lemma {:induction false} BreakEvensExact(s: seq<real>)
    ensures forall i :: 1 <= i < |s| ==> (i in BreakEvens(s) <==> Crosses(s[i - 1], s[i]))
    decreases |s|
  {
    if |s| >= 2 {
      var front := s[..|s| - 1];
      BreakEvensExact(front);
      var rest := BreakEvens(front);
      forall i | 1 <= i < |s| ensures i in BreakEvens(s) <==> Crosses(s[i - 1], s[i]) {
        if i < |s| - 1 {
          assert front[i - 1] == s[i - 1] && front[i] == s[i];
          assert i != |s| - 1;
        } else {
          assert i !in rest;
        }
      }
    }
  }

  /** calculateSummary over a non-empty payoff list. The maximum and minimum
      are elements of the list bounding every element, and the break-even
      scan visits each adjacent pair once, in order. */
  method CalculateSummary(payoffs: seq<real>) returns (summary: Stats)
    requires |payoffs| > 0
    ensures summary.maxProfit in payoffs && summary.maxLoss in payoffs
    ensures forall k :: 0 <= k < |payoffs| ==> summary.maxLoss <= payoffs[k] <= summary.maxProfit
    ensures summary.breakEvenPoints == BreakEvens(payoffs)
    ensures StrictlyIncreasing(summary.breakEvenPoints)
    ensures forall i :: 1 <= i < |payoffs| ==> (i in summary.breakEvenPoints <==> Crosses(payoffs[i - 1], payoffs[i]))
  {
    var maxProfit := MaxOf(payoffs);
    var maxLoss := MinOf(payoffs);
    var breakEvenPoints: seq<nat> := [];
    var i := 1;
    while i < |payoffs|
      invariant 1 <= i <= |payoffs|
      invariant breakEvenPoints == BreakEvens(payoffs[..i])
    {
      assert payoffs[..i + 1][..i] == payoffs[..i];
      if (payoffs[i - 1] < 0.0 && payoffs[i] >= 0.0) || (payoffs[i - 1] >= 0.0 && payoffs[i] < 0.0) {
        breakEvenPoints := breakEvenPoints + [i];
      }
      i := i + 1;
    }
    assert payoffs[..i] == payoffs;
    BreakEvensExact(payoffs);
    summary := Stats(maxProfit, maxLoss, breakEvenPoints);
  }

  /** A curve that never changes sign (all non-negative, zero included, or
      all negative) has no break-even point. */
  lemma {:induction false} NoSignChangeNoBreakEvens(s: seq<real>)
    requires (forall k :: 0 <= k < |s| ==> s[k] >= 0.0) || (forall k :: 0 <= k < |s| ==> s[k] < 0.0)
    ensures BreakEvens(s) == []
    decreases |s|
  {
    if |s| >= 2 {
      var front := s[..|s| - 1];
      assert forall k :: 0 <= k < |front| ==> front[k] == s[k];
      NoSignChangeNoBreakEvens(front);
      assert !Crosses(s[|s| - 2], s[|s| - 1]);
    }
  }

  /** An all-zero curve: maximum 0, minimum 0, no break-even point. */
  lemma FlatZeroSummary(s: seq<real>)
    requires |s| > 0 && forall k :: 0 <= k < |s| ==> s[k] == 0.0
    ensures MaxOf(s) == 0.0 && MinOf(s) == 0.0 && BreakEvens(s) == []
  {
    NoSignChangeNoBreakEvens(s);
  }

  /** A single sample at exactly zero between two negative samples is
      recorded twice: once on the way up and once on the way down. */
  lemma ZeroTouchCountsTwice(s: seq<real>, i: nat)
    requires 1 <= i && i + 1 < |s|
    requires s[i - 1] < 0.0 && s[i] == 0.0 && s[i + 1] < 0.0
    ensures i in BreakEvens(s) && i + 1 in BreakEvens(s)
  {
    BreakEvensExact(s);
  }

  /** The curve -1, 0, -1 has two break-even points, at 1 and at 2. */
  lemma ZeroTouchExample()
    ensures BreakEvens([-1.0, 0.0, -1.0]) == [1, 2]
  {
    var s := [-1.0, 0.0, -1.0];
    assert s[..2][..1] == [-1.0];
    assert s[..2] == [-1.0, 0.0];
  }

  /** In a strictly increasing list, the tail holds exactly the members
      other than the head. */
  lemma TailMembers(a: seq<nat>, x: nat)
    requires StrictlyIncreasing(a) && a != []
    ensures x in a[1..] <==> (x in a && x != a[0])
  {
    if x in a && x != a[0] {
      var i :| 0 <= i < |a| && a[i] == x;
      assert a[1..][i - 1] == x;
    }
    if x in a[1..] {
      var i :| 0 <= i < |a| - 1 && a[1..][i] == x;
      assert a[i + 1] == x;
    }
  }

  /** Two strictly increasing index lists with the same members are equal. */
  lemma {:induction false} StrictlyIncreasingUnique(a: seq<nat>, b: seq<nat>)
    requires StrictlyIncreasing(a) && StrictlyIncreasing(b)
    requires forall x :: x in a <==> x in b
    ensures a == b
    decreases |a|
  {
    if a == [] {
      assert forall k :: 0 <= k < |b| ==> b[k] !in b;
    } else {
      assert b != [] by { assert a[0] in a; }
      assert a[0] in b && b[0] in a;
      var j :| 0 <= j < |a| && a[j] == b[0];
      var k :| 0 <= k < |b| && b[k] == a[0];
      assert a[0] == b[0];
      var a', b' := a[1..], b[1..];
      forall x ensures x in a' <==> x in b' {
        TailMembers(a, x);
        TailMembers(b, x);
      }
      StrictlyIncreasingUnique(a', b');
      assert a == [a[0]] + a' && b == [b[0]] + b';
    }
  }
}
