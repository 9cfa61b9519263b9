/** The mass and emissions arithmetic of the calculator (app.py lines 73-83):
    plastic in pounds, post-consumer recycled (PCR) plastic in pounds, and
    the CO2e avoided by that PCR in metric tons. Exact `real` arithmetic
    stands for Python's floats. */
module Pcr {
  import opened Catalog

  const GRAMS_PER_LB: real := 453.59237
  const KG_PER_LB: real := 0.45359237
  /** The sidebar's starting value for kg CO2e avoided per kg of PCR. */
  const DEFAULT_CO2E_AVOIDED_KG_PER_KG_PCR: real := 1.70

  /** The two conversion constants describe the same pound. */
  lemma PoundConstantsAgree()
    ensures KG_PER_LB * 1000.0 == GRAMS_PER_LB
  {
  }

  /** What the calculator shows for one part and one purchase. */
  datatype Metrics = Metrics(plasticLbs: real, pcrLbs: real, co2eAvoidedMetricTons: real)

  /** `plastic_lbs`: converted back to grams it is the weight of all units. */
  function PlasticLbs(grams: real, units: nat): (lbs: real)
    ensures lbs * GRAMS_PER_LB == grams * units as real
  {
    (grams * units as real) / GRAMS_PER_LB
  }

  /** `pcr_lbs`: the share `pct` percent of the plastic. */
  function PcrLbs(plasticLbs: real, pct: real): (lbs: real)
    ensures lbs * 100.0 == plasticLbs * pct
  {
    plasticLbs * (pct / 100.0)
  }

  /** `pcr_kg`: the same mass in kilograms, i.e. a thousandth of its grams. */
  function LbsToKg(lbs: real): (kg: real)
    ensures kg * 1000.0 == lbs * GRAMS_PER_LB
  {
    lbs * KG_PER_LB
  }

  /** `co2e_avoided_metric_tons` from `co2e_avoided_kg`. */
  function KgToMetricTons(kg: real): (t: real)
    ensures t * 1000.0 == kg
  {
    kg / 1000.0
  }

  /** `pcr_pct`: the row's "PCR Content %", or 0 when it is missing. */
  function PcrPercent(r: Part): (pct: real)
    ensures r.pcrPercent == Some(pct) || (r.pcrPercent.None? && pct == 0.0)
  {
    if r.pcrPercent.Some? then r.pcrPercent.value else 0.0
  }

  /** The calculation for the found row `r`, `units` purchased and the
      avoidance factor `factor` (kg CO2e avoided per kg PCR). The whole chain
      of conversions collapses to grams × units × percent × factor / 10^8:
      pounds cancel, leaving grams of PCR / 1000 as kg and / 1000 as tons. */
  function Calculate(r: Part, units: nat, factor: real): (m: Metrics)
    ensures m.plasticLbs * GRAMS_PER_LB == r.grams * units as real
    ensures m.pcrLbs * 100.0 == m.plasticLbs * PcrPercent(r)
    ensures m.co2eAvoidedMetricTons * 100000000.0 == r.grams * units as real * PcrPercent(r) * factor
  {
    var plasticLbs := PlasticLbs(r.grams, units);
    var pcrLbs := PcrLbs(plasticLbs, PcrPercent(r));
    var pcrKg := LbsToKg(pcrLbs);
    var co2eAvoidedKg := pcrKg * factor;
    var tons := KgToMetricTons(co2eAvoidedKg);
    ChainCollapses(r.grams * units as real, PcrPercent(r), factor, plasticLbs, pcrLbs, pcrKg, tons);
    Metrics(plasticLbs, pcrLbs, tons)
  }

  /** Only the weight and the percentage of the row enter the calculation. */
  lemma CalculateIgnoresPartNumber(r: Part, s: Part, units: nat, factor: real)
    requires r.grams == s.grams && r.pcrPercent == s.pcrPercent
    ensures Calculate(r, units, factor) == Calculate(s, units, factor)
  {
    assert PcrPercent(r) == PcrPercent(s);
  }

  lemma ChainCollapses(g: real, pct: real, factor: real, plasticLbs: real, pcrLbs: real, pcrKg: real, tons: real)
    requires plasticLbs * GRAMS_PER_LB == g
    requires pcrLbs * 100.0 == plasticLbs * pct
    requires pcrKg * 1000.0 == pcrLbs * GRAMS_PER_LB
    requires tons * 1000.0 == pcrKg * factor
    ensures tons * 100000000.0 == g * pct * factor
  {
    calc {
      tons * 100000000.0;
      (tons * 1000.0) * 100000.0;
      (pcrKg * 1000.0) * factor * 100.0;
      (pcrLbs * 100.0) * GRAMS_PER_LB * factor;
      (plasticLbs * GRAMS_PER_LB) * pct * factor;
      g * pct * factor;
    }
  }

  lemma ProductSign(a: real, b: real)
    ensures a >= 0.0 && b >= 0.0 ==> a * b >= 0.0
    ensures a > 0.0 && b > 0.0 ==> a * b > 0.0
  {
  }

  /** Nothing purchased: no plastic, no PCR, nothing avoided. */
  lemma NoUnitsNoMass(r: Part, factor: real)
    ensures Calculate(r, 0, factor) == Metrics(0.0, 0.0, 0.0)
  {
  }

  /** A row without a PCR percentage counts as 0 % PCR: no PCR pounds and
      no CO2e avoided, whatever the factor. */
  lemma MissingPercentMeansNoPcr(r: Part, units: nat, factor: real)
    requires r.pcrPercent.None?
    ensures Calculate(r, units, factor).pcrLbs == 0.0
    ensures Calculate(r, units, factor).co2eAvoidedMetricTons == 0.0
  {
  }

  /** A factor of 0 avoids nothing. */
  lemma ZeroFactorAvoidsNothing(r: Part, units: nat)
    ensures Calculate(r, units, 0.0).co2eAvoidedMetricTons == 0.0
  {
  }

  /** Non-negative weights give non-negative plastic, and more units never
      give less plastic. */
  lemma PlasticMonotoneInUnits(r: Part, u1: nat, u2: nat, factor: real)
    requires r.grams >= 0.0 && u1 <= u2
    ensures 0.0 <= Calculate(r, u1, factor).plasticLbs <= Calculate(r, u2, factor).plasticLbs
  {
    var m1, m2 := Calculate(r, u1, factor), Calculate(r, u2, factor);
    assert r.grams * u1 as real <= r.grams * u2 as real;
    assert (m2.plasticLbs - m1.plasticLbs) * GRAMS_PER_LB == r.grams * (u2 - u1) as real;
  }

  /** A percentage in [0, 100] keeps the PCR pounds between 0 and the
      plastic pounds. */
  lemma PcrWithinPlastic(r: Part, units: nat, factor: real)
    requires r.grams >= 0.0
    requires 0.0 <= PcrPercent(r) <= 100.0
    ensures 0.0 <= Calculate(r, units, factor).pcrLbs <= Calculate(r, units, factor).plasticLbs
  {
    var m := Calculate(r, units, factor);
    PlasticMonotoneInUnits(r, 0, units, factor);
    var pct := PcrPercent(r);
    ProductSign(m.plasticLbs, pct);
    ProductSign(m.plasticLbs, 100.0 - pct);
    assert m.plasticLbs * 100.0 == m.plasticLbs * (100.0 - pct) + m.plasticLbs * pct;
    assert m.pcrLbs * 100.0 <= m.plasticLbs * 100.0;
  }

  /** Percentages are not clamped: above 100 % the PCR exceeds the plastic. */
  lemma PercentNotClamped(r: Part, units: nat, factor: real)
    requires r.grams > 0.0 && units > 0
    requires PcrPercent(r) > 100.0
    ensures Calculate(r, units, factor).pcrLbs > Calculate(r, units, factor).plasticLbs
  {
    var m := Calculate(r, units, factor);
    ProductSign(r.grams, units as real);
    ProductSign(-m.plasticLbs, GRAMS_PER_LB);
    assert m.plasticLbs > 0.0;
    var pct := PcrPercent(r);
    ProductSign(m.plasticLbs, pct - 100.0);
    assert m.plasticLbs * pct == m.plasticLbs * (pct - 100.0) + m.plasticLbs * 100.0;
    assert m.pcrLbs * 100.0 > m.plasticLbs * 100.0;
  }

  /** With non-negative weight, percentage and factor the avoided CO2e is
      non-negative. */
  lemma AvoidedNonNegative(r: Part, units: nat, factor: real)
    requires r.grams >= 0.0 && PcrPercent(r) >= 0.0 && factor >= 0.0
    ensures Calculate(r, units, factor).co2eAvoidedMetricTons >= 0.0
  {
    var g := r.grams * units as real;
    ProductSign(r.grams, units as real);
    ProductSign(g, PcrPercent(r));
    ProductSign(g * PcrPercent(r), factor);
  }
}
