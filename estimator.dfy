/**
 * The decision and bookkeeping parts of mpgen2.py, the exoplanet environment estimator: defaults
 * for missing catalogue values, the greenhouse-gas weight list, the spectral-type lookup, the
 * clamping of the sampled temperatures and pressures, their reduction to (min, max) ranges, and
 * the per-row result policy.  The radiative formulas are parameters (`Physics`) and the random
 * draws are inputs (`Draws`).
 */
module Estimator {
  import opened Numbers

  // Constants of the script (lines 5-18)
  const G: real := 0.000000000066743                         // m^3 kg^-1 s^-2
  const L_SUN: real := 382800000000000000000000000.0         // W
  const EARTH_MASS: real := 5972000000000000000000000.0      // kg, one pl_masse unit
  const EARTH_RADIUS: real := 6371000.0                      // m, one pl_rade unit
  const SOLAR_CONSTANT: real := 1361.0                       // W/m^2, one pl_insol unit
  const DEFAULT_MASS_PLANET: real := 1.0 * EARTH_MASS
  const DEFAULT_RADIUS_PLANET: real := 1.0 * EARTH_RADIUS
  const DEFAULT_INSOLATION: real := 1.0 * SOLAR_CONSTANT
  const DEFAULT_STELLAR_TEMP: real := 5778.0
  const DEFAULT_STELLAR_METALLICITY: real := 0.0
  const DEFAULT_STELLAR_MASS: real := 1.0
  const DEFAULT_STELLAR_TYPE: NonEmptyString := "G2V"

  // Sampling and clamping (lines 33-42, 46-65)
  const SAMPLES: nat := 1000
  const RELATIVE_SPREAD: real := 0.05                        // scale = centre * 0.05
  const MAX_TEMPERATURE: real := 2000.0                      // K
  const MIN_PRESSURE: real := 0.000000000001                 // bar
  const MAX_PRESSURE: real := 10000.0                        // bar
  const PASCAL_PER_BAR: real := 100000.0
  const EARTH_GRAVITY: real := 9.8                           // m/s^2

  /** The factor table of estimate_xray_uv_radiation, keyed by upper-case spectral class. */
  const SPECTRAL_FACTORS: map<char, real> :=
    map['O' := 1000.0, 'B' := 100.0, 'A' := 10.0, 'F' := 1.0, 'G' := 0.1, 'K' := 0.01, 'M' := 0.001]

  /** A string read from the catalogue is never empty: pandas reads an empty field as NaN. */
  type NonEmptyString = s: string | |s| > 0 witness "G"

  /** A cell that the script passes to `float()`: NaN, a value float() accepts, or one it rejects. */
  datatype NumberCell = Blank | Number(x: real) | Malformed

  /** The st_spectype cell: NaN, a string, or a value of some other type. */
  datatype TypeCell = NoType | Text(s: NonEmptyString) | NotText

  /** One catalogue row; `None` in a numeric column is NaN. */
  datatype Planet = Planet(
    name: string,                                             // pl_name
    mass: NumberCell, radius: NumberCell, insolation: NumberCell, // pl_masse, pl_rade, pl_insol
    stellarTemp: Option<real>,                                // st_teff
    metallicity: Option<real>,                                // st_met
    stellarMass: Option<real>,                                // st_mass
    spectralType: TypeCell,                                   // st_spectype
    h2o: Option<real>, co2: Option<real>, ch4: Option<real>)  // *_presence (0 when the column is absent)

  /** The values of lines 91-97 after the fallbacks, in SI units for the planet. */
  datatype Inputs = Inputs(
    mass: real, radius: real, insolation: real,
    stellarTemp: real, metallicity: real, stellarMass: real,
    stellarType: TypeCell)

  /**
   * The floating-point physics the model does not interpret: the tidally-locked day and night
   * temperatures of lines 47-60 as a function of insolation, greenhouse weights, planet mass and
   * radius; and the metallicity multiplier `10**metallicity` of line 71.
   */
  datatype Physics = Physics(
    dayNight: (real, seq<real>, real, real) -> (real, real),
    metallicityFactor: real -> real)

  /**
   * The random draws of one row: standard-normal variates behind the day and night samples, and
   * the log-normal pressure draws in pascal.
   */
  datatype Draws = Draws(dayZ: seq<real>, nightZ: seq<real>, lognormal: seq<real>)

  datatype Range = Range(lo: real, hi: real)

  /** One output row; every range is `None` when mass, radius or insolation is zero. */
  datatype Estimate = Estimate(
    name: string,
    temperature: Option<Range>, pressure: Option<Range>, xray: Option<Range>, uv: Option<Range>)

  predicate WellSized(d: Draws)
  {
    |d.dayZ| == SAMPLES && |d.nightZ| == SAMPLES && |d.lognormal| == SAMPLES
  }

  // ---------------------------------------------------------------------------------------------
  // Fallbacks (lines 91-97)
  // ---------------------------------------------------------------------------------------------

  /** `float(cell) * unit` unless the cell is NaN; `None` is the ValueError float() raises. */
  function Scaled(cell: NumberCell, unit: real, default: real): Option<real>
  {
    match cell
    case Blank => Some(default)
    case Number(x) => Some(x * unit)
    case Malformed => None
  }

  function OrElse(cell: Option<real>, default: real): real
  {
    if cell.Some? then cell.value else default
  }

  /** Lines 91-97: `None` when one of the three float() conversions raises ValueError. */
  function Resolve(p: Planet): (r: Option<Inputs>)
    ensures r.None? <==> p.mass.Malformed? || p.radius.Malformed? || p.insolation.Malformed?
  {
    var mass := Scaled(p.mass, EARTH_MASS, DEFAULT_MASS_PLANET);
    var radius := Scaled(p.radius, EARTH_RADIUS, DEFAULT_RADIUS_PLANET);
    var insolation := Scaled(p.insolation, SOLAR_CONSTANT, DEFAULT_INSOLATION);
    if mass.None? || radius.None? || insolation.None? then None
    else Some(Inputs(
      mass.value, radius.value, insolation.value,
      OrElse(p.stellarTemp, DEFAULT_STELLAR_TEMP),
      OrElse(p.metallicity, DEFAULT_STELLAR_METALLICITY),
      OrElse(p.stellarMass, DEFAULT_STELLAR_MASS),
      if p.spectralType.NoType? then Text(DEFAULT_STELLAR_TYPE) else p.spectralType))
  }

  /** Every NaN field takes the Earth or Sun value; every present one is kept (and scaled). */
  lemma FallbackToDefaults(p: Planet)
    requires Resolve(p).Some?
    ensures var t := Resolve(p).value;
      (t.mass == if p.mass.Blank? then DEFAULT_MASS_PLANET else p.mass.x * EARTH_MASS) &&
      (t.radius == if p.radius.Blank? then DEFAULT_RADIUS_PLANET else p.radius.x * EARTH_RADIUS) &&
      (t.insolation == if p.insolation.Blank? then DEFAULT_INSOLATION else p.insolation.x * SOLAR_CONSTANT) &&
      (t.stellarTemp == if p.stellarTemp.None? then DEFAULT_STELLAR_TEMP else p.stellarTemp.value) &&
      (t.metallicity == if p.metallicity.None? then DEFAULT_STELLAR_METALLICITY else p.metallicity.value) &&
      (t.stellarMass == if p.stellarMass.None? then DEFAULT_STELLAR_MASS else p.stellarMass.value) &&
      (t.stellarType == if p.spectralType.NoType? then Text("G2V") else p.spectralType) &&
      t.stellarType != NoType
  {
  }

  // ---------------------------------------------------------------------------------------------
  // Greenhouse gases (lines 100-106)
  // ---------------------------------------------------------------------------------------------

  /** A presence flag counts only when the cell equals 1. */
  predicate Present(flag: Option<real>)
  {
    flag == Some(1.0)
  }

  function Sum(s: seq<real>): real
  {
    if s == [] then 0.0 else s[0] + Sum(s[1..])
  }

  /** The weights of the gases flagged present, in H2O, CO2, CH4 order. */
  function GreenhouseWeights(p: Planet): (r: seq<real>)
    ensures |r| <= 3 && 0.0 <= Sum(r) <= 0.45
    ensures 0.1 in r <==> Present(p.h2o)
    ensures 0.15 in r <==> Present(p.co2)
    ensures 0.2 in r <==> Present(p.ch4)
    ensures forall i, j :: 0 <= i < j < |r| ==> r[i] < r[j]
    ensures forall x :: x in r ==> x == 0.1 || x == 0.15 || x == 0.2
  {
    var r := (if Present(p.h2o) then [0.1] else []) + (if Present(p.co2) then [0.15] else [])
             + (if Present(p.ch4) then [0.2] else []);
    SumSmall(r);
    r
  }

  /** Distinct weights drawn from 0.1, 0.15 and 0.2, in increasing order, sum to at most 0.45. */
  lemma SumSmall(s: seq<real>)
    requires |s| <= 3
    requires forall i, j :: 0 <= i < j < |s| ==> s[i] < s[j]
    requires forall x :: x in s ==> x == 0.1 || x == 0.15 || x == 0.2
    ensures 0.0 <= Sum(s) <= 0.45
  {
    if |s| > 0 {
      assert s[0] in s;
      if |s| == 1 {
        assert Sum(s) == s[0] + Sum(s[1..]) == s[0];
      } else {
        assert s[1] in s && s[0] < s[1];
        if |s| == 2 {
          assert Sum(s[1..]) == s[1] + Sum(s[2..]) == s[1];
        } else {
          assert s[2] in s && s[1] < s[2];
          assert s[2..][1..] == [];
          assert Sum(s[1..]) == s[1] + Sum(s[2..]) == s[1] + s[2];
        }
      }
    }
  }

  /** Lines 100-106: the list grows by one conditional append per gas. */
  method CollectGreenhouse(p: Planet) returns (effects: seq<real>)
    ensures effects == GreenhouseWeights(p)
    ensures |effects| <= 3 && Sum(effects) <= 0.45
  {
    effects := [];
    if p.h2o == Some(1.0) {
      effects := effects + [0.1];
    }
    if p.co2 == Some(1.0) {
      effects := effects + [0.15];
    }
    if p.ch4 == Some(1.0) {
      effects := effects + [0.2];
    }
  }

  // ---------------------------------------------------------------------------------------------
  // Spectral lookup (lines 70-81)
  // ---------------------------------------------------------------------------------------------

  /** Python's `str.upper` on one character, as far as the factor table can tell. */
  function Upper(c: char): char
  {
    if 'a' <= c <= 'z' then (c as int - 32) as char else c
  }

  /** `spectral_factors.get(key, 1)`. */
  function FactorOf(key: char): (r: real)
    ensures r in SPECTRAL_FACTORS.Values
  {
    assert SPECTRAL_FACTORS['F'] == 1.0;
    if key in SPECTRAL_FACTORS then SPECTRAL_FACTORS[key] else 1.0
  }

  /** The spectral factor: a string is keyed by its upper-cased first letter, anything else as 'G'. */
  function SpectralFactor(t: TypeCell): (r: real)
    ensures r in SPECTRAL_FACTORS.Values
    ensures t.Text? && Upper(t.s[0]) !in SPECTRAL_FACTORS ==> r == 1.0
    ensures !t.Text? ==> r == 0.1
  {
    if t.Text? then FactorOf(Upper(t.s[0])) else FactorOf(Upper(DEFAULT_STELLAR_TYPE[0]))
  }

  /** The lookup is case-insensitive: a lower-case class letter gets its upper-case factor. */
  lemma SpectralCaseInsensitive(c: char, rest: string)
    requires c in SPECTRAL_FACTORS
    ensures 'A' <= c <= 'Z'
    ensures SpectralFactor(Text([c] + rest)) == SPECTRAL_FACTORS[c]
    ensures SpectralFactor(Text([(c as int + 32) as char] + rest)) == SPECTRAL_FACTORS[c]
  {
  }

  /** A missing type falls back to "G2V": factor 0.1, unlike the 1 an unknown letter gets. */
  lemma MissingTypeIsG(p: Planet)
    requires Resolve(p).Some? && p.spectralType.NoType?
    ensures SpectralFactor(Resolve(p).value.stellarType) == 0.1
    ensures SpectralFactor(Text("X")) == 1.0
  {
  }

  /** X-ray and UV luminosity of lines 79-80. */
  function Luminosities(t: Inputs, phys: Physics): (r: (real, real))
    ensures t.stellarTemp == DEFAULT_STELLAR_TEMP && t.stellarMass == DEFAULT_STELLAR_MASS ==>
      r.0 == L_SUN * 0.000001 * phys.metallicityFactor(t.metallicity) * SpectralFactor(t.stellarType) &&
      r.1 == L_SUN * 0.01 * phys.metallicityFactor(t.metallicity) * SpectralFactor(t.stellarType)
    ensures 0.0 <= t.stellarMass && 0.0 <= phys.metallicityFactor(t.metallicity) ==> 0.0 <= r.0
    ensures 0.0 <= t.stellarTemp && 0.0 <= phys.metallicityFactor(t.metallicity) ==> 0.0 <= r.1
  {
    var metallicityFactor := phys.metallicityFactor(t.metallicity);
    var spectralFactor := SpectralFactor(t.stellarType);
    var m := t.stellarMass;
    var ratio := t.stellarTemp / 5778.0;
    (L_SUN * 0.000001 * (m * m * m) * (ratio * ratio * ratio * ratio) * metallicityFactor * spectralFactor,
     L_SUN * 0.01 * (m * m) * (ratio * ratio * ratio * ratio * ratio) * metallicityFactor * spectralFactor)
  }

  /**
   * Flux at the planet, lines 119-121: L / (4 pi d^2) with d^2 = L_sun / (4 pi I), which over
   * the reals is L * I / L_sun.
   */
  function Flux(luminosity: real, insolation: real): (r: real)
    ensures luminosity == L_SUN ==> r == insolation
    ensures 0.0 <= luminosity && 0.0 <= insolation ==> 0.0 <= r
  {
    MulNonNegative(luminosity, insolation);
    luminosity * insolation / L_SUN
  }

  lemma MulNonNegative(x: real, y: real)
    ensures 0.0 <= x && 0.0 <= y ==> 0.0 <= x * y
  {
  }

  // ---------------------------------------------------------------------------------------------
  // Clamping and reduction (lines 42, 62-65, 123-124)
  // ---------------------------------------------------------------------------------------------

  /** numpy's `clip(x, lo, hi)`, that is `minimum(maximum(x, lo), hi)`. */
  function Clip(x: real, lo: real, hi: real): (r: real)
    ensures lo <= hi ==> lo <= r <= hi
    ensures lo <= x <= hi ==> r == x
    ensures x < lo <= hi ==> r == lo
    ensures hi < x ==> r == hi
    ensures r <= hi
  {
    var raised := if x < lo then lo else x;
    if raised > hi then hi else raised
  }

  /** `np.random.normal(loc=centre, scale=centre*0.05)` driven by standard-normal variates. */
  function NormalSamples(centre: real, z: seq<real>): (r: seq<real>)
    ensures |r| == |z|
    ensures forall i :: 0 <= i < |z| && z[i] == 0.0 ==> r[i] == centre
    ensures forall i, j :: 0 <= i < |z| && 0 <= j < |z| && 0.0 <= centre && z[i] <= z[j] ==> r[i] <= r[j]
  {
    SamplesMonotone(centre, z);
    seq(|z|, i requires 0 <= i < |z| => Sample(centre, z[i]))
  }

  /** One normal sample: the centre plus `z` standard deviations of `centre * 0.05`. */
  function Sample(centre: real, z: real): real
  {
    centre + centre * RELATIVE_SPREAD * z
  }

  /** A non-negative centre gives a non-negative spread, which keeps the order of the variates. */
  lemma SamplesMonotone(centre: real, z: seq<real>)
    ensures forall i, j :: 0 <= i < |z| && 0 <= j < |z| && 0.0 <= centre && z[i] <= z[j] ==>
              Sample(centre, z[i]) <= Sample(centre, z[j])
  {
    var scale := centre * RELATIVE_SPREAD;
    forall i, j | 0 <= i < |z| && 0 <= j < |z| && 0.0 <= centre && z[i] <= z[j]
      ensures Sample(centre, z[i]) <= Sample(centre, z[j])
    {
      assert 0.0 <= scale;
      assert scale * z[j] - scale * z[i] == scale * (z[j] - z[i]);
    }
  }

  /** Line 64: every day sample clamped to [0, 2000]. */
  function ClipDay(day: seq<real>): (r: seq<real>)
    ensures |r| == |day|
    ensures forall i :: 0 <= i < |r| ==> 0.0 <= r[i] <= MAX_TEMPERATURE
    ensures forall i :: 0 <= i < |r| && 0.0 <= day[i] <= MAX_TEMPERATURE ==> r[i] == day[i]
    ensures forall i :: 0 <= i < |r| && day[i] < 0.0 ==> r[i] == 0.0
    ensures forall i :: 0 <= i < |r| && MAX_TEMPERATURE < day[i] ==> r[i] == MAX_TEMPERATURE
  {
    seq(|day|, i requires 0 <= i < |day| => Clip(day[i], 0.0, MAX_TEMPERATURE))
  }

  /** Line 65: every night sample clamped to [0, the day sample of the same index]. */
  function ClipNight(night: seq<real>, day: seq<real>): (r: seq<real>)
    requires |night| == |day|
    ensures |r| == |night|
    ensures forall i :: 0 <= i < |r| ==> r[i] <= day[i]
    ensures forall i :: 0 <= i < |r| && 0.0 <= day[i] ==> 0.0 <= r[i]
    ensures forall i :: 0 <= i < |r| && 0.0 <= night[i] <= day[i] ==> r[i] == night[i]
    ensures forall i :: 0 <= i < |r| && night[i] < 0.0 <= day[i] ==> r[i] == 0.0
    ensures forall i :: 0 <= i < |r| && day[i] < night[i] ==> r[i] == day[i]
  {
    seq(|night|, i requires 0 <= i < |night| => Clip(night[i], 0.0, day[i]))
  }

  function GravityFactor(mass: real, radius: real): real
    requires radius != 0.0
  {
    G * mass / (radius * radius) / EARTH_GRAVITY
  }

  /** One pressure sample: pascal scaled by the gravity ratio, converted to bar, clamped. */
  function ToBar(draw: real, gravityFactor: real): (r: real)
    ensures MIN_PRESSURE <= r <= MAX_PRESSURE
  {
    Clip(draw * gravityFactor / PASCAL_PER_BAR, MIN_PRESSURE, MAX_PRESSURE)
  }

  /** Lines 37-42 as values: each draw scaled by the gravity ratio, converted to bar, clamped. */
  function PressureBars(mass: real, radius: real, draws: seq<real>): (r: seq<real>)
    requires radius != 0.0
    ensures |r| == |draws|
    ensures forall i :: 0 <= i < |r| ==> MIN_PRESSURE <= r[i] <= MAX_PRESSURE
  {
    var factor := GravityFactor(mass, radius);
    seq(|draws|, i requires 0 <= i < |draws| => ToBar(draws[i], factor))
  }

  /**
   * calculate_pressure_range on the array: `*= gravity_factor`, `/= 1e5`, then `clip`, each a
   * pass over the samples.
   */
  method CalculatePressureRange(mass: real, radius: real, draws: seq<real>) returns (pressure: array<real>)
    requires radius != 0.0
    ensures fresh(pressure)
    ensures pressure[..] == PressureBars(mass, radius, draws)
  {
    var gravityFactor := GravityFactor(mass, radius);
    ghost var scaled := seq(|draws|, k requires 0 <= k < |draws| => draws[k] * gravityFactor);
    ghost var bars := seq(|draws|, k requires 0 <= k < |draws| => scaled[k] / PASCAL_PER_BAR);
    ghost var target := PressureBars(mass, radius, draws);
    assert forall k :: 0 <= k < |draws| ==> target[k] == Clip(bars[k], MIN_PRESSURE, MAX_PRESSURE);
    pressure := new real[|draws|](i requires 0 <= i < |draws| => draws[i]);
    for i := 0 to pressure.Length
      invariant forall k :: 0 <= k < i ==> pressure[k] == scaled[k]
      invariant forall k :: i <= k < pressure.Length ==> pressure[k] == draws[k]
    {
      pressure[i] := pressure[i] * gravityFactor;
    }
    for i := 0 to pressure.Length
      invariant forall k :: 0 <= k < i ==> pressure[k] == bars[k]
      invariant forall k :: i <= k < pressure.Length ==> pressure[k] == scaled[k]
    {
      pressure[i] := pressure[i] / PASCAL_PER_BAR;
    }
    for i := 0 to pressure.Length
      invariant forall k :: 0 <= k < i ==> pressure[k] == target[k]
      invariant forall k :: i <= k < pressure.Length ==> pressure[k] == bars[k]
    {
      pressure[i] := Clip(pressure[i], MIN_PRESSURE, MAX_PRESSURE);
    }
  }

  /** numpy's `.min()` of a non-empty sample array. */
  function Min(s: seq<real>): (r: real)
    requires |s| > 0
    ensures r in s
    ensures forall i :: 0 <= i < |s| ==> r <= s[i]
  {
    if |s| == 1 then s[0]
    else
      var rest := Min(s[1..]);
      if s[0] <= rest then s[0] else rest
  }

  /** numpy's `.max()` of a non-empty sample array. */
  function Max(s: seq<real>): (r: real)
    requires |s| > 0
    ensures r in s
    ensures forall i :: 0 <= i < |s| ==> s[i] <= r
  {
    if |s| == 1 then s[0]
    else
      var rest := Max(s[1..]);
      if s[0] >= rest then s[0] else rest
  }

  /** Line 123: the reported range runs from the coldest night sample to the hottest day sample. */
  lemma TemperatureRangeOrdered(day: seq<real>, night: seq<real>)
    requires |day| == |night| > 0
    ensures var d := ClipDay(day); var n := ClipNight(night, d);
      0.0 <= Min(n) <= Max(d) <= MAX_TEMPERATURE
  {
    var d := ClipDay(day);
    var n := ClipNight(night, d);
    assert Min(n) <= n[0] <= d[0] <= Max(d);
  }

  // ---------------------------------------------------------------------------------------------
  // The per-row policy (lines 87-141)
  // ---------------------------------------------------------------------------------------------

  /** The guard of line 113: all three of mass, radius and insolation are truthy (non-zero). */
  predicate Usable(t: Inputs)
  {
    t.mass != 0.0 && t.radius != 0.0 && t.insolation != 0.0
  }

  /**
   * One row: `None` when a ValueError skips it (a float() that fails, or a negative normal
   * scale), the null-filled row when the guard fails, the four ranges otherwise.
   */
  function EstimateRow(p: Planet, d: Draws, phys: Physics): (r: Option<Estimate>)
    requires WellSized(d)
    ensures r.Some? ==> r.value.name == p.name
    ensures r.None? ==> Resolve(p).None? || Usable(Resolve(p).value)
  {
    match Resolve(p)
    case None => None
    case Some(t) =>
      if !Usable(t) then Some(Estimate(p.name, None, None, None, None))
      else
        var (tDay, tNight) := phys.dayNight(t.insolation, GreenhouseWeights(p), t.mass, t.radius);
        if tDay < 0.0 || tNight < 0.0 then None
        else
          var day := ClipDay(NormalSamples(tDay, d.dayZ));
          var night := ClipNight(NormalSamples(tNight, d.nightZ), day);
          var pressure := PressureBars(t.mass, t.radius, d.lognormal);
          var (lx, luv) := Luminosities(t, phys);
          var fx, fuv := Flux(lx, t.insolation), Flux(luv, t.insolation);
          Some(Estimate(p.name,
            Some(Range(Min(night), Max(day))),
            Some(Range(Min(pressure), Max(pressure))),
            Some(Range(fx, fx)),
            Some(Range(fuv, fuv))))
  }

  /** When a row is skipped: exactly on a ValueError. */
  lemma RowSkippedIff(p: Planet, d: Draws, phys: Physics)
    requires WellSized(d)
    ensures EstimateRow(p, d, phys).None? <==>
      (p.mass.Malformed? || p.radius.Malformed? || p.insolation.Malformed? ||
       (Usable(Resolve(p).value) &&
        var centres := phys.dayNight(Resolve(p).value.insolation, GreenhouseWeights(p),
                                     Resolve(p).value.mass, Resolve(p).value.radius);
        centres.0 < 0.0 || centres.1 < 0.0))
  {
  }

  /**
   * A kept row carries the planet's name; its four ranges are all absent exactly when mass,
   * radius or insolation is zero, and otherwise obey the clamps: 0 <= min night <= max day <=
   * 2000 K, 1e-12 <= min pressure <= max pressure <= 1e4 bar, and a single flux value each.
   */
  lemma RowRanges(p: Planet, d: Draws, phys: Physics)
    requires WellSized(d) && EstimateRow(p, d, phys).Some?
    ensures var e := EstimateRow(p, d, phys).value;
      e.name == p.name &&
      (e.temperature.None? <==> !Usable(Resolve(p).value)) &&
      (e.temperature.None? <==> e.pressure.None?) &&
      (e.temperature.None? <==> e.xray.None?) &&
      (e.temperature.None? <==> e.uv.None?) &&
      (e.temperature.Some? ==> 0.0 <= e.temperature.value.lo <= e.temperature.value.hi <= MAX_TEMPERATURE) &&
      (e.pressure.Some? ==> MIN_PRESSURE <= e.pressure.value.lo <= e.pressure.value.hi <= MAX_PRESSURE) &&
      (e.xray.Some? ==> e.xray.value.lo == e.xray.value.hi) &&
      (e.uv.Some? ==> e.uv.value.lo == e.uv.value.hi)
  {
    var t := Resolve(p).value;
    if Usable(t) {
      var (tDay, tNight) := phys.dayNight(t.insolation, GreenhouseWeights(p), t.mass, t.radius);
      TemperatureRangeOrdered(NormalSamples(tDay, d.dayZ), NormalSamples(tNight, d.nightZ));
      var pressure := PressureBars(t.mass, t.radius, d.lognormal);
      assert Min(pressure) <= pressure[0] <= Max(pressure);
    }
  }

  /** The kept rows of a table, in input order; built from the back, as the loop builds it. */
  function Estimates(rows: seq<Planet>, draws: seq<Draws>, phys: Physics): (r: seq<Estimate>)
    requires |draws| == |rows| && forall i :: 0 <= i < |draws| ==> WellSized(draws[i])
    ensures |r| <= |rows|
  {
    if rows == [] then []
    else
      var n := |rows| - 1;
      Estimates(rows[..n], draws[..n], phys) +
        (match EstimateRow(rows[n], draws[n], phys) case None => [] case Some(e) => [e])
  }

  /** The number of rows a ValueError skips. */
  function Skipped(rows: seq<Planet>, draws: seq<Draws>, phys: Physics): nat
    requires |draws| == |rows| && forall i :: 0 <= i < |draws| ==> WellSized(draws[i])
  {
    if rows == [] then 0
    else
      var n := |rows| - 1;
      Skipped(rows[..n], draws[..n], phys) + (if EstimateRow(rows[n], draws[n], phys).None? then 1 else 0)
  }

  /** One output row per input row that no ValueError skips. */
  lemma {:induction false} EstimatesOnePerRow(rows: seq<Planet>, draws: seq<Draws>, phys: Physics)
    requires |draws| == |rows| && forall i :: 0 <= i < |draws| ==> WellSized(draws[i])
    ensures |Estimates(rows, draws, phys)| + Skipped(rows, draws, phys) == |rows|
    ensures Skipped(rows, draws, phys) == 0 ==>
      forall i :: 0 <= i < |rows| ==> Some(Estimates(rows, draws, phys)[i]) == EstimateRow(rows[i], draws[i], phys)
  {
    if rows != [] {
      var n := |rows| - 1;
      var last := EstimateRow(rows[n], draws[n], phys);
      EstimatesOnePerRow(rows[..n], draws[..n], phys);
      assert Estimates(rows, draws, phys) ==
             Estimates(rows[..n], draws[..n], phys) + (match last case None => [] case Some(e) => [e]);
      assert Skipped(rows, draws, phys) == Skipped(rows[..n], draws[..n], phys) + (if last.None? then 1 else 0);
      if Skipped(rows, draws, phys) == 0 {
        forall i | 0 <= i < |rows|
          ensures Some(Estimates(rows, draws, phys)[i]) == EstimateRow(rows[i], draws[i], phys)
        {
          if i < n {
            assert rows[..n][i] == rows[i] && draws[..n][i] == draws[i];
          }
        }
      }
    }
  }

  /**
   * Kept rows stay in input order: the result of kept row i sits at position i minus the number
   * of rows skipped before it.
   */
  lemma {:induction false} EstimatesInOrder(rows: seq<Planet>, draws: seq<Draws>, phys: Physics, i: nat)
    requires |draws| == |rows| && forall k :: 0 <= k < |draws| ==> WellSized(draws[k])
    requires i < |rows| && EstimateRow(rows[i], draws[i], phys).Some?
    ensures Skipped(rows[..i], draws[..i], phys) <= i
    ensures i - Skipped(rows[..i], draws[..i], phys) < |Estimates(rows, draws, phys)|
    ensures Estimates(rows, draws, phys)[i - Skipped(rows[..i], draws[..i], phys)] ==
            EstimateRow(rows[i], draws[i], phys).value
  {
    var n := |rows| - 1;
    var front, frontDraws := rows[..n], draws[..n];
    var kept := Estimates(front, frontDraws, phys);
    var last := EstimateRow(rows[n], draws[n], phys);
    assert Estimates(rows, draws, phys) == kept + (match last case None => [] case Some(e) => [e]);
    if i < n {
      EstimatesInOrder(front, frontDraws, phys, i);
      assert front[..i] == rows[..i] && frontDraws[..i] == draws[..i];
      assert front[i] == rows[i] && frontDraws[i] == draws[i];
    } else {
      EstimatesOnePerRow(front, frontDraws, phys);
      assert rows[..i] == front && draws[..i] == frontDraws;
      assert |kept| == n - Skipped(front, frontDraws, phys);
    }
  }

  /**
   * The try block of lines 90-138 for one row: `None` is the ValueError that sends the row to
   * `continue`, otherwise the row to append.
   */
  method EstimateOne(row: Planet, draw: Draws, phys: Physics) returns (outcome: Option<Estimate>)
    requires WellSized(draw)
    ensures outcome == EstimateRow(row, draw, phys)
  {
    var inputs := Resolve(row);
    if inputs.None? {
      return None;
    }
    var t := inputs.value;
    var greenhouse := CollectGreenhouse(row);
    var estimate := Estimate(row.name, None, None, None, None);
    if t.mass != 0.0 && t.radius != 0.0 && t.insolation != 0.0 {
      var (tDay, tNight) := phys.dayNight(t.insolation, greenhouse, t.mass, t.radius);
      if tDay < 0.0 || tNight < 0.0 {
        return None;
      }
      var day := ClipDay(NormalSamples(tDay, draw.dayZ));
      var night := ClipNight(NormalSamples(tNight, draw.nightZ), day);
      var pressure := CalculatePressureRange(t.mass, t.radius, draw.lognormal);
      var (lx, luv) := Luminosities(t, phys);
      var fx, fuv := Flux(lx, t.insolation), Flux(luv, t.insolation);
      estimate := Estimate(row.name,
        Some(Range(Min(night), Max(day))),
        Some(Range(Min(pressure[..]), Max(pressure[..]))),
        Some(Range(fx, fx)),
        Some(Range(fuv, fuv)));
    }
    return Some(estimate);
  }

  /**
   * The loop of lines 87-141: each row's try block either yields a result, which is appended,
   * or raises ValueError, which sends the row to `continue`.
   */
  method EstimateAll(rows: seq<Planet>, draws: seq<Draws>, phys: Physics) returns (results: seq<Estimate>)
    requires |draws| == |rows| && forall i :: 0 <= i < |draws| ==> WellSized(draws[i])
    ensures results == Estimates(rows, draws, phys)
  {
    results := [];
    for n := 0 to |rows|
      invariant results == Estimates(rows[..n], draws[..n], phys)
    {
      assert rows[..n + 1][..n] == rows[..n] && draws[..n + 1][..n] == draws[..n];
      var outcome := EstimateOne(rows[n], draws[n], phys);
      if outcome.None? {
        continue;
      }
      results := results + [outcome.value];
    }
    assert rows[..|rows|] == rows && draws[..|draws|] == draws;
  }
}
