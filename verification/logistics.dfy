/**
 The shipping-fee services of the dependency-injection example: three
 carriers behind one fee interface, each charging a base fee plus a rate per
 kilogram. Weights are integers and are not validated.
 */
module Logistics {

  /** The implementations of the logistics interface. */
  datatype Carrier = BlackCat | Hsinchu | PostOffice

  /** Black Cat: 100 plus 10 per kilogram. */
  function BlackCatFee(weight: int): int {
    100 + weight * 10
  }

  /** Hsinchu: 80 plus 15 per kilogram. */
  function HsinchuFee(weight: int): int {
    80 + weight * 15
  }

  /** Post office: 70 plus 20 per kilogram. */
  function PostOfficeFee(weight: int): int {
    70 + weight * 20
  }

  /** The interface's one method, dispatched to the carrier's class. */
  function CalculateFee(c: Carrier, weight: int): int {
    match c
    case BlackCat => BlackCatFee(weight)
    case Hsinchu => HsinchuFee(weight)
    case PostOffice => PostOfficeFee(weight)
  }

  /** Black Cat charges 100 for nothing, 10 more per kilogram, and nothing
      at all for minus ten kilograms: the weight is taken as given. */
  lemma BlackCatRule(w: int)
    ensures BlackCatFee(0) == 100 && BlackCatFee(w + 1) == BlackCatFee(w) + 10
    ensures BlackCatFee(-10) == 0
  {
  }

  /** Hsinchu charges 80 for nothing and 15 more per kilogram. */
  lemma HsinchuRule(w: int)
    ensures HsinchuFee(0) == 80 && HsinchuFee(w + 1) == HsinchuFee(w) + 15
  {
  }

  /** The post office charges 70 for nothing and 20 more per kilogram. */
  lemma PostOfficeRule(w: int)
    ensures PostOfficeFee(0) == 70 && PostOfficeFee(w + 1) == PostOfficeFee(w) + 20
  {
  }

  /** The extra kilogram's charge of each carrier. */
  function Step(c: Carrier): (r: nat)
    ensures forall w :: CalculateFee(c, w + 1) == CalculateFee(c, w) + r
  {
    match c
    case BlackCat => 10
    case Hsinchu => 15
    case PostOffice => 20
  }

  /** Every carrier's fee is strictly increasing in the weight: a heavier
      parcel always costs more, by the step for every extra kilogram. */
  lemma {:induction false} FeeIncreasing(c: Carrier, a: int, b: int)
    requires a < b
    ensures CalculateFee(c, a) < CalculateFee(c, b)
    ensures CalculateFee(c, b) - CalculateFee(c, a) == (b - a) * Step(c)
    decreases b - a
  {
    if a + 1 < b {
      FeeIncreasing(c, a + 1, b);
    }
  }

  /** Hsinchu against Black Cat: cheaper below 4 kilograms, the same at 4,
      dearer above. */
  lemma HsinchuVsBlackCat(w: int)
    ensures HsinchuFee(w) < BlackCatFee(w) <==> w < 4
    ensures HsinchuFee(w) == BlackCatFee(w) <==> w == 4
    ensures HsinchuFee(w) > BlackCatFee(w) <==> w > 4
  {
  }

  /** The post office costs the same as Black Cat at 3 kilograms and as
      Hsinchu at 2, and is strictly the cheapest of the three up to 1 kilogram. */
  lemma PostOfficeCrossovers(w: int)
    ensures PostOfficeFee(3) == BlackCatFee(3) && PostOfficeFee(2) == HsinchuFee(2)
    ensures w <= 1 ==> PostOfficeFee(w) < HsinchuFee(w) && PostOfficeFee(w) < BlackCatFee(w)
    ensures PostOfficeFee(w) < HsinchuFee(w) <==> w < 2
    ensures PostOfficeFee(w) < BlackCatFee(w) <==> w < 3
  {
  }

  /** The cheapest carrier for a weight: the post office up to 1 kilogram,
      Hsinchu from 2 to 4 (4 tied with Black Cat) and Black Cat from 5. */
  function Cheapest(w: int): (r: Carrier)
    ensures forall c :: CalculateFee(r, w) <= CalculateFee(c, w)
  {
    if w <= 1 then PostOffice else if w <= 4 then Hsinchu else BlackCat
  }
}
