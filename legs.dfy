/** The option legs a user enters in the form, and the two edits the form
    makes to the list of legs: changing one field of one leg, and adding the
    default leg while there are fewer than four. Both edits rebuild the list;
    neither mutates the old one. */
module Legs {

  /** OptionsGraph.jsx compares the leg's type with 'call'; every other value is
      priced as a put. */
  datatype Kind = Call | Put

  /** One option position. Strike, premium and quantity are exact reals
      (the form converts its text inputs with Number()). */
  datatype Leg = Leg(kind: Kind, strike: real, premium: real, quantity: real)

  /** The UI allows at most this many legs. */
  const MaxLegs: nat := 4

  /** The leg the "Add Option" button appends. */
  const DefaultLeg: Leg := Leg(Call, 100.0, 10.0, 1.0)

  /** The leg the form starts with: a call whose strike and premium are
      empty strings, which JavaScript subtraction reads as 0. */
  const InitialLeg: Leg := Leg(Call, 0.0, 0.0, 1.0)

  /** The list the form starts with. */
  const InitialLegs: seq<Leg> := [InitialLeg]

  /** A change of one named field to a new value. */
  datatype Edit =
    | SetKind(newKind: Kind)
    | SetStrike(newStrike: real)
    | SetPremium(newPremium: real)
    | SetQuantity(newQuantity: real)

  /** The leg with exactly one field replaced (the object spread with a
      computed key). */
  function SetField(leg: Leg, e: Edit): (r: Leg)
    ensures r.kind == (if e.SetKind? then e.newKind else leg.kind)
    ensures r.strike == (if e.SetStrike? then e.newStrike else leg.strike)
    ensures r.premium == (if e.SetPremium? then e.newPremium else leg.premium)
    ensures r.quantity == (if e.SetQuantity? then e.newQuantity else leg.quantity)
  {
    match e
    case SetKind(k) => leg.(kind := k)
    case SetStrike(s) => leg.(strike := s)
    case SetPremium(p) => leg.(premium := p)
    case SetQuantity(q) => leg.(quantity := q)
  }

  /** handleChange: the leg at `index` gets the edit, every other leg is
      kept. An index outside the list matches no leg, so nothing changes. */
  function HandleChange(legs: seq<Leg>, index: int, e: Edit): (r: seq<Leg>)
    ensures |r| == |legs|
    ensures forall j :: 0 <= j < |legs| && j != index ==> r[j] == legs[j]
    ensures 0 <= index < |legs| ==> r[index] == SetField(legs[index], e)
    ensures !(0 <= index < |legs|) ==> r == legs
  {
    seq(|legs|, j requires 0 <= j < |legs| => if j == index then SetField(legs[j], e) else legs[j])
  }

  /** addOption: append the default leg while there are fewer than
      MaxLegs legs; otherwise the list is returned as it was. */
  function AddOption(legs: seq<Leg>): (r: seq<Leg>)
    ensures |r| == (if |legs| < MaxLegs then |legs| + 1 else |legs|)
    ensures r[..|legs|] == legs
    ensures |r| > |legs| ==> r[|legs|] == DefaultLeg
    ensures |legs| <= MaxLegs ==> |r| <= MaxLegs
  {
    if |legs| < MaxLegs then legs + [DefaultLeg] else legs
  }

  /** The list after `clicks` presses of the "Add Option" button. */
  function AddOptionTimes(legs: seq<Leg>, clicks: nat): seq<Leg>
    decreases clicks
  {
    if clicks == 0 then legs else AddOptionTimes(AddOption(legs), clicks - 1)
  }

  /** `count` copies of the default leg. */
  function DefaultLegs(count: nat): (r: seq<Leg>)
    ensures |r| == count
  {
    if count == 0 then [] else [DefaultLeg] + DefaultLegs(count - 1)
  }

  /** Appending one default leg and then k more is appending k + 1. */
  lemma AppendDefaultLegs(legs: seq<Leg>, k: nat)
    ensures (legs + [DefaultLeg]) + DefaultLegs(k) == legs + DefaultLegs(k + 1)
  {
    assert DefaultLegs(k + 1) == [DefaultLeg] + DefaultLegs(k);
  }

  /** Any number of presses of "Add Option" keeps the existing legs and
      appends default legs up to MaxLegs and never beyond. */
  lemma {:induction false} AddOptionTimesSaturates(legs: seq<Leg>, clicks: nat)
    requires |legs| <= MaxLegs
    ensures AddOptionTimes(legs, clicks)
         == legs + DefaultLegs(if |legs| + clicks < MaxLegs then clicks else MaxLegs - |legs|)
    decreases clicks
  {
    if clicks == 0 {
      assert legs + DefaultLegs(0) == legs;
    } else if |legs| == MaxLegs {
      AddOptionTimesSaturates(legs, clicks - 1);
    } else {
      var next := legs + [DefaultLeg];
      AddOptionTimesSaturates(next, clicks - 1);
      AppendDefaultLegs(legs, if |next| + clicks - 1 < MaxLegs then clicks - 1 else MaxLegs - |next|);
    }
  }
}
