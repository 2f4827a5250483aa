/** Cole's LMS transform and the WHO classification of the resulting z-score. */
module Scoring {

  /** The indicator as the classifier branches on it: "length" is length-for-age,
      "weight" is weight-for-age, and every other selected indicator ("wfl") is
      weight-for-length. */
  datatype Indicator = LengthForAge | WeightForAge | WeightForLength

  function IndicatorOf(ind: string): (i: Indicator)
    ensures i == LengthForAge <==> ind == "length"
    ensures i == WeightForAge <==> ind == "weight"
  {
    if ind == "length" then LengthForAge
    else if ind == "weight" then WeightForAge
    else WeightForLength
  }

  /** The L (skewness), M (median) and S (coefficient of variation) of one table row. */
  datatype Lms = Lms(l: real, m: real, s: real)

  /** The `**` operator on floats: base, then exponent. It is a parameter of the
      model because the source raises to a fractional power in floating point. */
  type Power = (real, real) -> real

  /** The divisions in the formula are defined: M is not zero and L*S is not zero.
      Otherwise Python raises ZeroDivisionError. */
  predicate Computable(lms: Lms)
  {
    lms.m != 0.0 && lms.l * lms.s != 0.0
  }

  /** z = ((measurement / M) ** L - 1) / (L * S), before rounding. */
  function ZScore(measurement: real, lms: Lms, pow: Power): real
    requires Computable(lms)
  {
    (pow(measurement / lms.m, lms.l) - 1.0) / (lms.l * lms.s)
  }

  /** The if/elif chains of the source, one per indicator, on the unrounded z. */
  function Classify(ind: Indicator, z: real): string
  {
    match ind
    case LengthForAge =>
      if z < -3.0 then "Severely stunted"
      else if z < -2.0 then "Moderately stunted"
      else if z <= 2.0 then "Normal"
      else "Tall"
    case WeightForAge =>
      if z < -3.0 then "Severe underweight"
      else if z < -2.0 then "Underweight"
      else if z <= 2.0 then "Normal"
      else "Overweight"
    case WeightForLength =>
      if z < -3.0 then "Severe wasting"
      else if z < -2.0 then "Wasting"
      else if z <= 2.0 then "Normal"
      else "Overweight"
  }

  /** The four z bands that every indicator shares, lowest first. */
  datatype Band = Severe | Moderate | Normal | High

  function Rank(b: Band): nat
  {
    match b
    case Severe => 0
    case Moderate => 1
    case Normal => 2
    case High => 3
  }

  /** The band of a z-score, characterised by the interval it lies in: the
      intervals are disjoint and cover every real, closed below at -3 and -2 and
      closed above at 2. */
  function BandOf(z: real): (b: Band)
    ensures b == Severe <==> z < -3.0
    ensures b == Moderate <==> -3.0 <= z && z < -2.0
    ensures b == Normal <==> -2.0 <= z && z <= 2.0
    ensures b == High <==> 2.0 < z
  {
    if z < -3.0 then Severe
    else if z < -2.0 then Moderate
    else if z <= 2.0 then Normal
    else High
  }

  /** The name of each band for each indicator, as the WHO standards word it. */
  function Label(ind: Indicator, b: Band): string
  {
    match (ind, b)
    case (_, Normal) => "Normal"
    case (LengthForAge, Severe) => "Severely stunted"
    case (LengthForAge, Moderate) => "Moderately stunted"
    case (LengthForAge, High) => "Tall"
    case (WeightForAge, Severe) => "Severe underweight"
    case (WeightForAge, Moderate) => "Underweight"
    case (WeightForAge, High) => "Overweight"
    case (WeightForLength, Severe) => "Severe wasting"
    case (WeightForLength, Moderate) => "Wasting"
    case (WeightForLength, High) => "Overweight"
  }

  /** The three chains agree with one shared banding: every z gets exactly the
      label of the one band it lies in. */
  lemma ClassifyByBand(ind: Indicator, z: real)
    ensures Classify(ind, z) == Label(ind, BandOf(z))
  {
  }

  /** Within one indicator, different bands carry different labels, so the label
      tells the band. */
  lemma LabelsDistinct(ind: Indicator, b1: Band, b2: Band)
    ensures Label(ind, b1) == Label(ind, b2) <==> b1 == b2
  {
  }

  /** The boundaries: -3 is moderate, -2 and 2 are "Normal", just above 2 is the
      high category. */
  lemma ClassifyBoundaries(ind: Indicator, eps: real)
    requires eps > 0.0
    ensures Classify(ind, -3.0) == Label(ind, Moderate) != Classify(ind, -3.0 - eps)
    ensures Classify(ind, -2.0) == "Normal" != Classify(ind, -2.0 - eps)
    ensures Classify(ind, 2.0) == "Normal" != Classify(ind, 2.0 + eps)
    ensures Classify(ind, 2.0 + eps) == Label(ind, High)
  {
  }

  /** A larger z never falls into a lower band. */
  lemma BandMonotone(z1: real, z2: real)
    requires z1 <= z2
    ensures Rank(BandOf(z1)) <= Rank(BandOf(z2))
  {
  }

  /** A measurement equal to the median scores exactly 0 whenever 1 ** L is 1,
      and 0 is "Normal" for every indicator. */
  lemma MedianScoresZero(lms: Lms, pow: Power, ind: Indicator)
    requires Computable(lms) && pow(1.0, lms.l) == 1.0
    ensures ZScore(lms.m, lms, pow) == 0.0
    ensures Classify(ind, ZScore(lms.m, lms, pow)) == "Normal"
  {
    assert lms.m / lms.m == 1.0;
  }
}
