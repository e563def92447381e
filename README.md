# Options strategy payoff engine — a Dafny model

The OptionsGraph component lets a user describe up to four option legs
(call or put, strike, premium, quantity). It plots the portfolio's
profit or loss at expiration for the underlying prices 0 to 200, and
shows a summary: the largest payoff ("max profit"), the smallest
("max loss") and the break-even points. A break-even point is the index
of a sample at which the payoff changes sign with respect to the
previous sample.

This project models the logic of that component, which the React
component keeps in five closures:

- `Legs` (legs.dfy) holds the leg record, the default and initial legs,
  and the two list edits. `handleChange` rebuilds the list with one
  field of one leg replaced. `addOption` appends the default leg
  `{call, 100, 10, 1}` only while there are fewer than four legs. Both
  are pure functions on `seq<Leg>`, as in OptionsGraph.jsx.
- `Payoff` (payoff.dfy) holds the intrinsic value, the payoff of one
  leg, and the `reduce` fold over the legs as a recursive function.
  It also holds lemmas about the shape of a payoff: the loss bound,
  additivity, monotonicity and the break-even price.
- `Curve` (curve.dfy) holds `calculateData`. It is a method with a loop
  that pushes the prices 0..200 and their payoffs onto two sequences.
- `Summary` (summary.dfy) holds `calculateSummary`. The maximum and
  minimum are functions, like `Math.max`/`Math.min`. The break-even scan
  is a method whose loop is proved against the specification function
  `BreakEvens`. Lemmas characterise `BreakEvens` exactly and pin the
  zero tie-break.
- `OptionsGraph` (graph.dfy) holds the recompute step run after every
  edit (the `useEffect` in OptionsGraph.jsx), written as an explicit call. It also
  has lemmas that connect the list edits to the payoff, and two
  concrete scenarios: the default leg, and the form's initial leg.

All numbers are exact `real`s. OptionsGraph.jsx reads the leg's type with
`type === 'call'`, so any other value is priced as a put; `Kind` is
therefore `Call | Put`. The initial leg has an empty strike and an empty
premium. JavaScript subtraction reads an empty string as 0, so the model
gives that leg strike 0 and premium 0 (`Legs.InitialLeg`).

Two further facts about OptionsGraph.jsx shape the model:
- The sampled prices are fixed at 0..200 in steps of 1, the bounds of
  the loop at OptionsGraph.jsx:43 (`Curve.MaxPrice`).
- Quantity is whatever `Number()` yields from the form, so it is a
  `real`.

## Model

| member | source | states |
|---|---|---|
| `Legs.SetField` | src/components/OptionsGraph.jsx:22 | the edited field takes the new value and the other three fields keep their old values |
| `Legs.HandleChange` | src/components/OptionsGraph.jsx:21-24 | the length is preserved; the leg at the index is the edited leg; every other leg is unchanged; an index outside the list leaves the list unchanged |
| `Legs.AddOption` | src/components/OptionsGraph.jsx:26-30 | the existing legs are kept as a prefix; the length grows by one exactly when there were fewer than 4 legs; the appended leg is the default `{call, 100, 10, 1}`; a list of at most 4 legs stays at most 4 |
| `Legs.AddOptionTimesSaturates` | src/components/OptionsGraph.jsx:26-30 | any number of presses of "Add Option" on a list of at most 4 legs gives that list followed by default legs, up to 4 legs in total and no more |
| `Payoff.Intrinsic` | src/components/OptionsGraph.jsx:35 | the intrinsic value is max(0, price - strike) for a call and max(0, strike - price) for a put: it is non-negative, at least the moneyness, and equal to 0 or to the moneyness |
| `Payoff.LegPayoff` | src/components/OptionsGraph.jsx:34-36 | a leg of quantity 0 pays 0 at every price |
| `Payoff.LegLossBounded` | src/components/OptionsGraph.jsx:34-36 | a leg with quantity >= 0 never loses more than quantity * premium |
| `Payoff.PortfolioPayoff` | src/components/OptionsGraph.jsx:32-38 | an empty leg list pays 0 at every price (the fold starts from 0) |
| `Payoff.PortfolioLossBounded` | src/components/OptionsGraph.jsx:32-38 | a portfolio of legs with quantity >= 0 never loses more than the sum of quantity * premium |
| `Payoff.PortfolioAppend` | src/components/OptionsGraph.jsx:32-38 | the payoff of a + b is the payoff of a plus the payoff of b, at every price |
| `Payoff.CallLegShape` | src/components/OptionsGraph.jsx:35-36 | a call pays -quantity * premium at or below the strike, and quantity * (price - strike - premium) at or above it |
| `Payoff.PutLegShape` | src/components/OptionsGraph.jsx:35-36 | a put pays -quantity * premium at or above the strike, and quantity * (strike - price - premium) at or below it |
| `Payoff.LegBreakEven` | src/components/OptionsGraph.jsx:35-36 | with a non-negative premium, a call pays 0 at strike + premium and a put pays 0 at strike - premium |
| `Payoff.CallLegStrictlyIncreasing` | src/components/OptionsGraph.jsx:35-36 | above the strike, a call with positive quantity pays strictly more at a higher price |
| `Payoff.LongLegMonotone` | src/components/OptionsGraph.jsx:35-36 | with quantity >= 0, a call's payoff never falls and a put's payoff never rises as the price rises |
| `Payoff.LongCallsMonotone` | src/components/OptionsGraph.jsx:32-38 | the payoff of a portfolio made only of calls with quantity >= 0 never falls as the price rises |
| `Curve.CalculateData` | src/components/OptionsGraph.jsx:40-48 | both arrays have exactly 201 entries; prices[i] == i; payoffs[i] is the portfolio payoff at price i; the prices strictly increase |
| `Summary.MaxOf` | src/components/OptionsGraph.jsx:51 | the maximum of a non-empty list is one of its elements and no element exceeds it |
| `Summary.MinOf` | src/components/OptionsGraph.jsx:52 | the minimum of a non-empty list is one of its elements and no element is below it |
| `Summary.Crosses` | src/components/OptionsGraph.jsx:56 | the sign test holds exactly when one sample is negative and the other is not (zero counts as non-negative) |
| `Summary.BreakEvens` | src/components/OptionsGraph.jsx:53-59 | the break-even indices strictly increase and each lies in 1 .. length - 1 |
| `Summary.BreakEvensExact` | src/components/OptionsGraph.jsx:55-58 | i is a break-even index exactly when the pair (payoffs[i-1], payoffs[i]) crosses zero |
| `Summary.CalculateSummary` | src/components/OptionsGraph.jsx:50-62 | maxProfit and maxLoss are elements of the payoffs and bound every element; the break-even list is the specification `BreakEvens`, strictly increasing, with i in it exactly when the pair ending at i crosses zero |
| `Summary.NoSignChangeNoBreakEvens` | src/components/OptionsGraph.jsx:55-58 | a curve that is all non-negative (zeros included) or all negative has no break-even point |
| `Summary.FlatZeroSummary` | src/components/OptionsGraph.jsx:50-59 | an all-zero curve has max profit 0, max loss 0 and no break-even point |
| `Summary.ZeroTouchCountsTwice` | src/components/OptionsGraph.jsx:56 | a single zero sample between two negative samples gives two consecutive break-even indices |
| `Summary.ZeroTouchExample` | src/components/OptionsGraph.jsx:55-58 | the curve -1, 0, -1 has the break-even indices [1, 2] |
| `Summary.StrictlyIncreasingUnique` | src/components/OptionsGraph.jsx:55-58 | a strictly increasing index list is determined by its members, so the exact characterisation fixes the break-even list |
| `OptionsGraph.Recompute` | src/components/OptionsGraph.jsx:64-68 | after an edit, the curve has 201 samples with prices[i] == i and payoffs[i] the portfolio payoff at i, and the summary is the maximum, minimum and break-even list of those payoffs |
| `OptionsGraph.AddOptionPayoff` | src/components/OptionsGraph.jsx:26-38 | adding an option adds the default leg's payoff at every price while below 4 legs, and changes nothing at 4 legs |
| `OptionsGraph.HandleChangePayoff` | src/components/OptionsGraph.jsx:21-38 | editing leg i changes the portfolio payoff by exactly new leg payoff minus old leg payoff; an index outside the list changes nothing |
| `OptionsGraph.SingleLeg` | src/components/OptionsGraph.jsx:32-38 | a one-leg portfolio pays what its leg pays |
| `OptionsGraph.DefaultCallScenario` | src/components/OptionsGraph.jsx:40-62 | for the default leg (call, strike 100, premium 10, quantity 1) the curve has max loss -10, max profit 90 and the single break-even index 110 |
| `OptionsGraph.InitialFormScenario` | src/components/OptionsGraph.jsx:15-17 | for the form's initial leg (empty strike and premium, read as 0) the curve has max profit 200, max loss 0 and no break-even point |
| `OptionsGraph.InitialLegPaysPrice` | src/components/OptionsGraph.jsx:15-17 | at a non-negative price, the initial leg list pays exactly the price |

## Left out

- React state and effect wiring (`useState`, `setOptions`, `useEffect`): this is framework plumbing. `OptionsGraph.Recompute` is the explicit recompute call after an edit.
- Chart.js registration, the dataset and axis configuration, and the JSX form: UI and foreign library calls.
- String-to-number coercion with `Number(e.target.value)`, including `NaN` from text that is not a number: legs are taken as already-numeric values. The one coercion that affects a payoff, the initial empty strike and premium, is modelled as 0.
- IEEE floating point (rounding, `NaN`, infinities): all arithmetic is exact over `real`.
- `Legs.HandleChange`: `handleChange` in OptionsGraph.jsx accepts any field name and any value, so it could add a new key or store a non-number. The model takes one of the four form fields with a value of that field's type (`Edit`), which is all the form ever sends.
- `Summary.CalculateSummary`: requires a non-empty payoff list. For an empty list OptionsGraph.jsx returns `-Infinity` and `Infinity` (from `Math.max`/`Math.min` of nothing) and no break-even points. The summary is only ever applied to the 201-sample curve.
- `Summary.MaxOf`: requires a non-empty list, for the same reason; `Summary.MinOf` likewise.
