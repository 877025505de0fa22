/** The closed-form meteorological formulas of code/utils.py, on one element.
    NumPy applies each of them elementwise to arrays of equal shape; the model
    states them for a single value. */
module Meteorology {

  /** Specific heat of dry air at constant pressure, MJ/(kg °C) (1.013e-3). */
  const SpecificHeatAir: real := 0.001013
  /** Latent heat of vaporisation of water, MJ/kg. */
  const LatentHeatVaporization: real := 2.45
  /** Ratio of the molecular weights of water vapour and dry air. */
  const RatioVaporToAir: real := 0.622
  /** Joules per megajoule (1e6). */
  const JoulesPerMegajoule: real := 1000000.0
  /** The accumulation time, in seconds: the default of `calculate_Makkink_ET`'s
      parameter and the time it always converts the radiation over. */
  const MakkinkAccumulationSeconds: int := 1800
  /** The default radiation coefficient of `calculate_Makkink_ET`. */
  const MakkinkDefaultA: real := 0.63

  /** `calculate_psychrometric_constant`: gamma in kPa/°C for a pressure in
      kPa. Gamma is positive, zero or negative with the pressure. */
  function PsychrometricConstant(pressureKpa: real): (gamma: real)
    ensures 0.0 < pressureKpa <==> 0.0 < gamma
    ensures pressureKpa == 0.0 <==> gamma == 0.0
  {
    (SpecificHeatAir * pressureKpa) / (RatioVaporToAir * LatentHeatVaporization)
  }

  /** Gamma is linear in the pressure. */
  lemma PsychrometricLinear(a: real, p: real, b: real, q: real)
    ensures PsychrometricConstant(a * p + b * q)
         == a * PsychrometricConstant(p) + b * PsychrometricConstant(q)
  {
  }

  /** At standard sea-level pressure, 101.3 kPa, gamma is about 0.0673 kPa/°C. */
  lemma PsychrometricAtSeaLevel()
    ensures 0.0673 < PsychrometricConstant(101.3) < 0.0674
  {
  }

  /** `W_sqm_to_MJ_sq_m`: radiation in W/m² accumulated over
      `accumulationTime` seconds, in MJ/m²; scaling back by 1e6 gives the
      energy in J/m². */
  function WattsToMegajoules(radiation: real, accumulationTime: int): (energy: real)
    ensures energy * JoulesPerMegajoule == radiation * accumulationTime as real
  {
    (radiation * accumulationTime as real) / JoulesPerMegajoule
  }

  /** The conversion is linear in the radiation. */
  lemma WattsToMegajoulesLinear(a: real, r: real, b: real, s: real, accumulationTime: int)
    ensures WattsToMegajoules(a * r + b * s, accumulationTime)
         == a * WattsToMegajoules(r, accumulationTime) + b * WattsToMegajoules(s, accumulationTime)
  {
  }

  /** Line 154 for one value: Makkink evaporation from the slope `delta`,
      gamma, the radiation energy in MJ/m² and the coefficient. The source's
      quotient `delta / (delta / (delta + gamma))` equals `delta + gamma`.
      When `delta + gamma` is zero, `delta / 0.0` is infinite and so is the
      denominator, and the finite numerator over it gives zero. A zero slope
      gives `0/0`, a `nan` the model cannot represent. */
  function MakkinkFromEnergy(delta: real, gamma: real, radiationMj: real, constantA: real): (et: real)
    requires delta != 0.0
    ensures et * LatentHeatVaporization == constantA * radiationMj * (delta + gamma)
  {
    if delta + gamma == 0.0 then 0.0
    else
      SimplifyNestedQuotient(delta, gamma);
      (constantA * radiationMj * delta) / (LatentHeatVaporization * (delta / (delta + gamma)))
  }

  lemma SimplifyNestedQuotient(delta: real, gamma: real)
    requires delta != 0.0 && delta + gamma != 0.0
    ensures delta / (delta / (delta + gamma)) == delta + gamma
  {
  }

  /** `calculate_Makkink_ET`, with the slope `delta` of the saturation vapour
      pressure curve taken as an input (the source computes it with `np.exp`).
      The radiation is always converted over 1800 s, whatever
      `accumulationTime` says. */
  function MakkinkET(delta: real, pressureKpa: real, radiation: real,
                     constantA: real := MakkinkDefaultA,
                     accumulationTime: int := MakkinkAccumulationSeconds): (et: real)
    requires delta != 0.0
    ensures et * LatentHeatVaporization
         == constantA * WattsToMegajoules(radiation, MakkinkAccumulationSeconds)
            * (delta + PsychrometricConstant(pressureKpa))
  {
    MakkinkFromEnergy(delta, PsychrometricConstant(pressureKpa),
                      WattsToMegajoules(radiation, MakkinkAccumulationSeconds), constantA)
  }

  /** Makkink evaporation with the radiation converted over the
      accumulation time the caller passes, as the parameter's presence
      suggests was meant. */
  function MakkinkETAsIntended(delta: real, pressureKpa: real, radiation: real,
                               constantA: real := MakkinkDefaultA,
                               accumulationTime: int := MakkinkAccumulationSeconds): (et: real)
    requires delta != 0.0
    ensures et * LatentHeatVaporization
         == constantA * WattsToMegajoules(radiation, accumulationTime)
            * (delta + PsychrometricConstant(pressureKpa))
  {
    MakkinkFromEnergy(delta, PsychrometricConstant(pressureKpa),
                      WattsToMegajoules(radiation, accumulationTime), constantA)
  }

  /** The two agree at the default accumulation time of 1800 s. */
  lemma MakkinkAgreesAtDefault(delta: real, pressureKpa: real, radiation: real, constantA: real)
    requires delta != 0.0
    ensures MakkinkET(delta, pressureKpa, radiation, constantA)
         == MakkinkETAsIntended(delta, pressureKpa, radiation, constantA)
  {
  }

  /** With hourly radiation (3600 s) the source's result is half the
      intended one: slope 1 kPa/°C, 100 kPa, 100 W/m² and the default
      coefficient. */
  lemma MakkinkHourlyDiffers()
    ensures MakkinkET(1.0, 100.0, 100.0, MakkinkDefaultA, 3600) * 2.0
         == MakkinkETAsIntended(1.0, 100.0, 100.0, MakkinkDefaultA, 3600)
    ensures MakkinkET(1.0, 100.0, 100.0, MakkinkDefaultA, 3600)
         != MakkinkETAsIntended(1.0, 100.0, 100.0, MakkinkDefaultA, 3600)
  {
  }

  /** The accumulation-time argument has no effect on the result. */
  lemma MakkinkIgnoresAccumulationTime(delta: real, pressureKpa: real, radiation: real, constantA: real, s: int, t: int)
    requires delta != 0.0
    ensures MakkinkET(delta, pressureKpa, radiation, constantA, s)
         == MakkinkET(delta, pressureKpa, radiation, constantA, t)
  {
  }
}
