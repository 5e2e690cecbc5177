/**
 * The habitability matcher of exobioma.py: every atmospheric-profile row is paired with every
 * extremophile row (profiles outer, microbes inner) and a six-leg predicate decides whether the
 * microbe could live there.  A column absent from either table is a `None` field; looking it up
 * raises KeyError, which the matcher turns into an empty result.
 */
module Habitability {
  import opened Numbers

  /** One row of the atmospheric-profile table; `None` marks a column the file does not have. */
  datatype Atmosphere = Atmosphere(
    name: Option<string>,          // Nome
    altitude: Option<Float>,       // Altitudine(km)
    pressure: Option<Float>,       // Pressione(atm)
    temperature: Option<Float>,    // Temperatura(°C)
    humidity: Option<Float>,       // Umidita(%)
    ph: Option<Float>,             // pH
    xray: Option<Float>,           // Radiazioni_X(mSv/anno)
    uv: Option<Float>)             // Radiazioni_UV(W/m2)

  /** One row of the extremophile-tolerance table. */
  datatype Extremophile = Extremophile(
    name: Option<string>,
    pressureMin: Option<Float>, pressureMax: Option<Float>,
    temperatureMin: Option<Float>, temperatureMax: Option<Float>,
    humidityMin: Option<Float>, humidityMax: Option<Float>,
    phMin: Option<Float>, phMax: Option<Float>,
    xrayMax: Option<Float>,
    uvMax: Option<Float>)

  /** The columns the script subscripts; `Header` gives each one's name in the CSV files. */
  datatype Column =
    | Nome | AltitudineKm
    | Pressione | PressioneMin | PressioneMax
    | Temperatura | TemperaturaMin | TemperaturaMax
    | Umidita | UmiditaMin | UmiditaMax
    | PH | PHMin | PHMax
    | RadiazioniX | RadiazioniXMax | RadiazioniUV | RadiazioniUVMax

  function Header(c: Column): string
  {
    match c
    case Nome => "Nome"
    case AltitudineKm => "Altitudine(km)"
    case Pressione => "Pressione(atm)"
    case PressioneMin => "Pressione_min(atm)"
    case PressioneMax => "Pressione_max(atm)"
    case Temperatura => "Temperatura(°C)"
    case TemperaturaMin => "Temperatura_min(°C)"
    case TemperaturaMax => "Temperatura_max(°C)"
    case Umidita => "Umidita(%)"
    case UmiditaMin => "Umidita_min(%)"
    case UmiditaMax => "Umidita_max(%)"
    case PH => "pH"
    case PHMin => "pH_min"
    case PHMax => "pH_max"
    case RadiazioniX => "Radiazioni_X(mSv/anno)"
    case RadiazioniXMax => "Radiazioni_X_max(mSv/anno)"
    case RadiazioniUV => "Radiazioni_UV(W/m2)"
    case RadiazioniUVMax => "Radiazioni_UV_max(W/m2)"
  }

  /** One output record: Corpo_celeste, Altitudine, Microrganismo, Abitabile. */
  datatype Verdict = Verdict(body: string, altitude: Float, microbe: string, habitable: bool)

  /** The value of a subscript `row[column]`, or the KeyError it raises. */
  datatype Lookup<+T> = Found(value: T) | KeyError(column: Column)

  /** What the matcher returns: a table (empty after a caught KeyError), or an uncaught KeyError. */
  datatype Analysis = Table(rows: seq<Verdict>) | Crash(column: Column)

  /** What one iteration of the inner loop does with its pair. */
  datatype Step = Emit(verdict: Verdict) | Abort | Raise(column: Column)

  // ---------------------------------------------------------------------------------------------
  // The predicate
  // ---------------------------------------------------------------------------------------------

  predicate AtmosphereComplete(a: Atmosphere)
  {
    a.name.Some? && a.altitude.Some? && a.pressure.Some? && a.temperature.Some? &&
    a.humidity.Some? && a.ph.Some? && a.xray.Some? && a.uv.Some?
  }

  predicate ExtremophileComplete(m: Extremophile)
  {
    m.name.Some? && m.pressureMin.Some? && m.pressureMax.Some? &&
    m.temperatureMin.Some? && m.temperatureMax.Some? && m.humidityMin.Some? &&
    m.humidityMax.Some? && m.phMin.Some? && m.phMax.Some? && m.xrayMax.Some? && m.uvMax.Some?
  }

  /** The six legs once every column is present: four closed intervals and two upper bounds. */
  predicate Habitable(a: Atmosphere, m: Extremophile)
    requires AtmosphereComplete(a) && ExtremophileComplete(m)
  {
    Within(m.pressureMin.value, a.pressure.value, m.pressureMax.value) &&
    Within(m.temperatureMin.value, a.temperature.value, m.temperatureMax.value) &&
    Within(m.humidityMin.value, a.humidity.value, m.humidityMax.value) &&
    Within(m.phMin.value, a.ph.value, m.phMax.value) &&
    Le(a.xray.value, m.xrayMax.value) &&
    Le(a.uv.value, m.uvMax.value)
  }

  function Get(cell: Option<Float>, column: Column): Lookup<Float>
  {
    if cell.Some? then Found(cell.value) else KeyError(column)
  }

  /**
   * Python's `lo <= x <= hi` with subscripts as operands: `lo` and `x` are looked up and compared
   * first, and `hi` is looked up only when that comparison holds.
   */
  function Chain(lo: Lookup<Float>, x: Lookup<Float>, hi: Lookup<Float>): Lookup<bool>
  {
    if lo.KeyError? then KeyError(lo.column)
    else if x.KeyError? then KeyError(x.column)
    else if !Le(lo.value, x.value) then Found(false)
    else if hi.KeyError? then KeyError(hi.column)
    else Found(Le(x.value, hi.value))
  }

  /** Python's `x <= hi` with subscripts as operands, `x` looked up first. */
  function Cap(x: Lookup<Float>, hi: Lookup<Float>): Lookup<bool>
  {
    if x.KeyError? then KeyError(x.column)
    else if hi.KeyError? then KeyError(hi.column)
    else Found(Le(x.value, hi.value))
  }

  /** Python's short-circuit `first and rest`: `rest` is reached only when `first` is true. */
  function AndThen(first: Lookup<bool>, rest: Lookup<bool>): Lookup<bool>
  {
    if first.KeyError? || !first.value then first else rest
  }

  /** The names of the predicate's columns that a pair of rows lacks. */
  function MissingColumns(a: Atmosphere, m: Extremophile): set<Column>
  {
    (if m.pressureMin.None? then {PressioneMin} else {}) +
    (if a.pressure.None? then {Pressione} else {}) +
    (if m.pressureMax.None? then {PressioneMax} else {}) +
    (if m.temperatureMin.None? then {TemperaturaMin} else {}) +
    (if a.temperature.None? then {Temperatura} else {}) +
    (if m.temperatureMax.None? then {TemperaturaMax} else {}) +
    (if m.humidityMin.None? then {UmiditaMin} else {}) +
    (if a.humidity.None? then {Umidita} else {}) +
    (if m.humidityMax.None? then {UmiditaMax} else {}) +
    (if m.phMin.None? then {PHMin} else {}) +
    (if a.ph.None? then {PH} else {}) +
    (if m.phMax.None? then {PHMax} else {}) +
    (if a.xray.None? then {RadiazioniX} else {}) +
    (if m.xrayMax.None? then {RadiazioniXMax} else {}) +
    (if a.uv.None? then {RadiazioniUV} else {}) +
    (if m.uvMax.None? then {RadiazioniUVMax} else {})
  }

  /** Every one of the sixteen compared columns is present. */
  predicate Measured(a: Atmosphere, m: Extremophile)
  {
    m.pressureMin.Some? && a.pressure.Some? && m.pressureMax.Some? &&
    m.temperatureMin.Some? && a.temperature.Some? && m.temperatureMax.Some? &&
    m.humidityMin.Some? && a.humidity.Some? && m.humidityMax.Some? &&
    m.phMin.Some? && a.ph.Some? && m.phMax.Some? &&
    a.xray.Some? && m.xrayMax.Some? && a.uv.Some? && m.uvMax.Some?
  }

  /** Leg i of the try block's expression (lines 26-31, counted from 0), with its lookups. */
  function Test(a: Atmosphere, m: Extremophile, i: nat): Lookup<bool>
    requires i < 6
  {
    if i == 0 then Chain(Get(m.pressureMin, PressioneMin), Get(a.pressure, Pressione), Get(m.pressureMax, PressioneMax))
    else if i == 1 then
      Chain(Get(m.temperatureMin, TemperaturaMin), Get(a.temperature, Temperatura), Get(m.temperatureMax, TemperaturaMax))
    else if i == 2 then Chain(Get(m.humidityMin, UmiditaMin), Get(a.humidity, Umidita), Get(m.humidityMax, UmiditaMax))
    else if i == 3 then Chain(Get(m.phMin, PHMin), Get(a.ph, PH), Get(m.phMax, PHMax))
    else if i == 4 then Cap(Get(a.xray, RadiazioniX), Get(m.xrayMax, RadiazioniXMax))
    else Cap(Get(a.uv, RadiazioniUV), Get(m.uvMax, RadiazioniUVMax))
  }

  /** Legs i to 5 joined by `and`, left to right: a leg is evaluated only when those before it held. */
  function Legs(a: Atmosphere, m: Extremophile, i: nat): Lookup<bool>
    requires i <= 6
    decreases 6 - i
  {
    if i == 6 then Found(true) else AndThen(Test(a, m, i), Legs(a, m, i + 1))
  }

  /** The six legs written out as the single `and` chain of lines 25-32. */
  lemma LegsChain(a: Atmosphere, m: Extremophile)
    ensures Legs(a, m, 0) ==
      AndThen(Chain(Get(m.pressureMin, PressioneMin), Get(a.pressure, Pressione), Get(m.pressureMax, PressioneMax)),
      AndThen(Chain(Get(m.temperatureMin, TemperaturaMin), Get(a.temperature, Temperatura),
                    Get(m.temperatureMax, TemperaturaMax)),
      AndThen(Chain(Get(m.humidityMin, UmiditaMin), Get(a.humidity, Umidita), Get(m.humidityMax, UmiditaMax)),
      AndThen(Chain(Get(m.phMin, PHMin), Get(a.ph, PH), Get(m.phMax, PHMax)),
      AndThen(Cap(Get(a.xray, RadiazioniX), Get(m.xrayMax, RadiazioniXMax)),
              Cap(Get(a.uv, RadiazioniUV), Get(m.uvMax, RadiazioniUVMax)))))))
  {
    assert Legs(a, m, 5) == Cap(Get(a.uv, RadiazioniUV), Get(m.uvMax, RadiazioniUVMax));
    assert Legs(a, m, 4) == AndThen(Test(a, m, 4), Legs(a, m, 5));
    assert Legs(a, m, 3) == AndThen(Test(a, m, 3), Legs(a, m, 4));
    assert Legs(a, m, 2) == AndThen(Test(a, m, 2), Legs(a, m, 3));
    assert Legs(a, m, 1) == AndThen(Test(a, m, 1), Legs(a, m, 2));
  }

  /**
   * The expression of the try block: the six legs, left to right, with their KeyErrors.  With
   * every compared column present no KeyError is raised, and a true verdict is reached only
   * after every compared column was read.
   */
  function Evaluate(a: Atmosphere, m: Extremophile): (r: Lookup<bool>)
    ensures Measured(a, m) ==> r.Found?
    ensures r == Found(true) ==> Measured(a, m)
  {
    LegsChain(a, m);
    Legs(a, m, 0)
  }

  /** With every column present, the try block yields exactly the six-leg verdict. */
  lemma EvaluateComplete(a: Atmosphere, m: Extremophile)
    requires AtmosphereComplete(a) && ExtremophileComplete(m)
    ensures Evaluate(a, m) == Found(Habitable(a, m))
  {
  }

  /** The verdict over finite readings, written out as the six inequalities. */
  lemma HabitableIff(a: Atmosphere, m: Extremophile)
    requires AtmosphereComplete(a) && ExtremophileComplete(m)
    requires a.pressure.value.Finite? && a.temperature.value.Finite? && a.humidity.value.Finite?
    requires a.ph.value.Finite? && a.xray.value.Finite? && a.uv.value.Finite?
    requires m.pressureMin.value.Finite? && m.pressureMax.value.Finite?
    requires m.temperatureMin.value.Finite? && m.temperatureMax.value.Finite?
    requires m.humidityMin.value.Finite? && m.humidityMax.value.Finite?
    requires m.phMin.value.Finite? && m.phMax.value.Finite?
    requires m.xrayMax.value.Finite? && m.uvMax.value.Finite?
    ensures Habitable(a, m) <==>
      (m.pressureMin.value.x <= a.pressure.value.x <= m.pressureMax.value.x &&
       m.temperatureMin.value.x <= a.temperature.value.x <= m.temperatureMax.value.x &&
       m.humidityMin.value.x <= a.humidity.value.x <= m.humidityMax.value.x &&
       m.phMin.value.x <= a.ph.value.x <= m.phMax.value.x &&
       a.xray.value.x <= m.xrayMax.value.x &&
       a.uv.value.x <= m.uvMax.value.x)
  {
  }

  /** A KeyError always names a column that is really missing, and one is missing exactly when `Measured` fails. */
  lemma KeyErrorNamesMissingColumn(a: Atmosphere, m: Extremophile)
    ensures Evaluate(a, m).KeyError? ==> Evaluate(a, m).column in MissingColumns(a, m)
    ensures MissingColumns(a, m) == {} <==> Measured(a, m)
  {
  }

  /** Single-fault sensitivity: one failing leg makes the whole verdict false. */
  lemma SingleFault(a: Atmosphere, m: Extremophile)
    requires AtmosphereComplete(a) && ExtremophileComplete(m)
    requires !Within(m.pressureMin.value, a.pressure.value, m.pressureMax.value) ||
             !Within(m.temperatureMin.value, a.temperature.value, m.temperatureMax.value) ||
             !Within(m.humidityMin.value, a.humidity.value, m.humidityMax.value) ||
             !Within(m.phMin.value, a.ph.value, m.phMax.value) ||
             !Le(a.xray.value, m.xrayMax.value) ||
             !Le(a.uv.value, m.uvMax.value)
    ensures !Habitable(a, m)
  {
  }

  /** The interval legs are closed: a reading equal to either bound passes that leg. */
  lemma BoundsInclusive(lo: real, hi: real)
    requires lo <= hi
    ensures Within(Finite(lo), Finite(lo), Finite(hi)) && Within(Finite(lo), Finite(hi), Finite(hi))
    ensures !Within(Finite(lo), Finite(hi + 1.0), Finite(hi)) && !Within(Finite(lo), Finite(lo - 1.0), Finite(hi))
  {
  }

  /**
   * The radiation legs have no lower bound: once the four interval legs hold, the verdict is
   * decided by the two upper bounds alone, so zero or any negative reading passes.
   */
  lemma RadiationUpperBoundOnly(a: Atmosphere, m: Extremophile)
    requires AtmosphereComplete(a) && ExtremophileComplete(m)
    requires Within(m.pressureMin.value, a.pressure.value, m.pressureMax.value)
    requires Within(m.temperatureMin.value, a.temperature.value, m.temperatureMax.value)
    requires Within(m.humidityMin.value, a.humidity.value, m.humidityMax.value)
    requires Within(m.phMin.value, a.ph.value, m.phMax.value)
    requires a.xray.value.Finite? && a.uv.value.Finite?
    requires m.xrayMax.value.Finite? && m.uvMax.value.Finite?
    ensures Habitable(a, m) <==> a.xray.value.x <= m.xrayMax.value.x && a.uv.value.x <= m.uvMax.value.x
    ensures a.xray.value.x <= 0.0 <= m.xrayMax.value.x && a.uv.value.x <= 0.0 <= m.uvMax.value.x ==>
              Habitable(a, m)
  {
  }

  /** A NaN anywhere among the sixteen compared values makes the pair not habitable. */
  lemma NaNNotHabitable(a: Atmosphere, m: Extremophile)
    requires AtmosphereComplete(a) && ExtremophileComplete(m)
    requires a.pressure.value.NaN? || a.temperature.value.NaN? || a.humidity.value.NaN? ||
             a.ph.value.NaN? || a.xray.value.NaN? || a.uv.value.NaN? ||
             m.pressureMin.value.NaN? || m.pressureMax.value.NaN? ||
             m.temperatureMin.value.NaN? || m.temperatureMax.value.NaN? ||
             m.humidityMin.value.NaN? || m.humidityMax.value.NaN? ||
             m.phMin.value.NaN? || m.phMax.value.NaN? ||
             m.xrayMax.value.NaN? || m.uvMax.value.NaN?
    ensures !Habitable(a, m)
  {
  }

  /**
   * A profile at 1 atm, 20 °C, 50 %, pH 7 with no radiation suits a microbe tolerating 0.5-2 atm,
   * 0-40 °C, 20-80 %, pH 5-9 and up to 10 of each radiation, but not one needing 5-10 atm.
   */
  lemma ExampleVerdicts()
    ensures var a := Atmosphere(Some("Earth"), Some(Finite(0.0)), Some(Finite(1.0)), Some(Finite(20.0)),
                                Some(Finite(50.0)), Some(Finite(7.0)), Some(Finite(0.0)), Some(Finite(0.0)));
            var m := Extremophile(Some("Microbe"), Some(Finite(0.5)), Some(Finite(2.0)), Some(Finite(0.0)),
                                  Some(Finite(40.0)), Some(Finite(20.0)), Some(Finite(80.0)), Some(Finite(5.0)),
                                  Some(Finite(9.0)), Some(Finite(10.0)), Some(Finite(10.0)));
            Evaluate(a, m) == Found(true) &&
            Evaluate(a, m.(pressureMin := Some(Finite(5.0)), pressureMax := Some(Finite(10.0)))) == Found(false)
  {
  }

  /** The cells one leg compares: `lo <= x <= hi` for an interval leg, `x <= hi` for a radiation leg. */
  datatype Leg =
    | Interval(lo: Option<Float>, x: Option<Float>, hi: Option<Float>)
    | Bound(x: Option<Float>, hi: Option<Float>)

  /** Leg i of the predicate, counted from 0 in the order of lines 26-31. */
  function LegOf(a: Atmosphere, m: Extremophile, i: nat): Leg
    requires i < 6
  {
    if i == 0 then Interval(m.pressureMin, a.pressure, m.pressureMax)
    else if i == 1 then Interval(m.temperatureMin, a.temperature, m.temperatureMax)
    else if i == 2 then Interval(m.humidityMin, a.humidity, m.humidityMax)
    else if i == 3 then Interval(m.phMin, a.ph, m.phMax)
    else if i == 4 then Bound(a.xray, m.xrayMax)
    else Bound(a.uv, m.uvMax)
  }

  /** Every cell of the leg is present. */
  predicate Read(l: Leg)
  {
    match l
    case Interval(lo, x, hi) => lo.Some? && x.Some? && hi.Some?
    case Bound(x, hi) => x.Some? && hi.Some?
  }

  /** The leg's cells are present and its comparison is true. */
  predicate Holds(l: Leg)
  {
    match l
    case Interval(lo, x, hi) => lo.Some? && x.Some? && hi.Some? && Within(lo.value, x.value, hi.value)
    case Bound(x, hi) => x.Some? && hi.Some? && Le(x.value, hi.value)
  }

  /**
   * The leg comes out false from the cells Python actually reads: `lo <= x` failing needs only
   * `lo` and `x`, since `hi` is then never looked up.
   */
  predicate Refuted(l: Leg)
  {
    match l
    case Interval(lo, x, hi) =>
      lo.Some? && x.Some? && (!Le(lo.value, x.value) || (hi.Some? && !Le(x.value, hi.value)))
    case Bound(x, hi) => x.Some? && hi.Some? && !Le(x.value, hi.value)
  }

  /**
   * Short circuit: once the legs before leg i have been read and leg i comes out false, the
   * verdict is false, whatever columns the later legs would have needed.
   */
  lemma FailingLegShortCircuits(a: Atmosphere, m: Extremophile, i: nat)
    requires i < 6
    requires forall l :: 0 <= l < i ==> Read(LegOf(a, m, l))
    requires Refuted(LegOf(a, m, i))
    ensures Evaluate(a, m) == Found(false)
  {
    EarlierLegsRead(a, m, i);
  }

  /** The legs before leg i, read one by one. */
  lemma EarlierLegsRead(a: Atmosphere, m: Extremophile, i: nat)
    requires i <= 6
    requires forall l :: 0 <= l < i ==> Read(LegOf(a, m, l))
    ensures i > 0 ==> m.pressureMin.Some? && a.pressure.Some? && m.pressureMax.Some?
    ensures i > 1 ==> m.temperatureMin.Some? && a.temperature.Some? && m.temperatureMax.Some?
    ensures i > 2 ==> m.humidityMin.Some? && a.humidity.Some? && m.humidityMax.Some?
    ensures i > 3 ==> m.phMin.Some? && a.ph.Some? && m.phMax.Some?
    ensures i > 4 ==> a.xray.Some? && m.xrayMax.Some?
    ensures i > 5 ==> a.uv.Some? && m.uvMax.Some?
  {
    if i > 0 { assert Read(LegOf(a, m, 0)); }
    if i > 1 { assert Read(LegOf(a, m, 1)); }
    if i > 2 { assert Read(LegOf(a, m, 2)); }
    if i > 3 { assert Read(LegOf(a, m, 3)); }
    if i > 4 { assert Read(LegOf(a, m, 4)); }
    if i > 5 { assert Read(LegOf(a, m, 5)); }
  }

  /**
   * A KeyError raised once the legs before leg i have been read is reached only because every
   * one of those legs held.
   */
  lemma LateKeyErrorMeansEarlierLegsHeld(a: Atmosphere, m: Extremophile, i: nat)
    requires i <= 6
    requires forall l :: 0 <= l < i ==> Read(LegOf(a, m, l))
    requires Evaluate(a, m).KeyError?
    ensures forall l :: 0 <= l < i ==> Holds(LegOf(a, m, l))
  {
    EarlierLegsRead(a, m, i);
  }

  // ---------------------------------------------------------------------------------------------
  // The cross product
  // ---------------------------------------------------------------------------------------------

  /** The pairs visited by the two nested loops, in visiting order. */
  function Pairs(atmosphere: seq<Atmosphere>, extremophiles: seq<Extremophile>): (r: seq<(Atmosphere, Extremophile)>)
    ensures |r| == |atmosphere| * |extremophiles|
  {
    if atmosphere == [] then []
    else
      var rest := Pairs(atmosphere[1..], extremophiles);
      assert |atmosphere| * |extremophiles| == |extremophiles| + (|atmosphere| - 1) * |extremophiles|;
      seq(|extremophiles|, j requires 0 <= j < |extremophiles| => (atmosphere[0], extremophiles[j])) + rest
  }

  /** The size of the cross product, and where pair (i, j) sits in it. */
  lemma {:induction false} PairsAt(atmosphere: seq<Atmosphere>, extremophiles: seq<Extremophile>, i: nat, j: nat)
    requires i < |atmosphere| && j < |extremophiles|
    ensures i * |extremophiles| + j < |atmosphere| * |extremophiles|
    ensures Pairs(atmosphere, extremophiles)[i * |extremophiles| + j] == (atmosphere[i], extremophiles[j])
  {
    var m, n := |extremophiles|, |atmosphere|;
    var first := seq(m, j' requires 0 <= j' < m => (atmosphere[0], extremophiles[j']));
    var rest := Pairs(atmosphere[1..], extremophiles);
    assert Pairs(atmosphere, extremophiles) == first + rest;
    PeelRow(i, j, m, n);
    if i == 0 {
      assert (first + rest)[j] == first[j];
    } else {
      PairsAt(atmosphere[1..], extremophiles, i - 1, j);
      assert atmosphere[1..][i - 1] == atmosphere[i];
      assert (first + rest)[m + ((i - 1) * m + j)] == rest[(i - 1) * m + j];
    }
  }

  /** The arithmetic of peeling the first row off an n-by-m product. */
  lemma PeelRow(i: nat, j: nat, m: nat, n: nat)
    requires i < n && j < m
    ensures n * m == m + (n - 1) * m
    ensures i > 0 ==> i * m + j == m + ((i - 1) * m + j)
    ensures i * m + j < n * m
  {
    assert i * m + j < i * m + m == (i + 1) * m;
    assert (i + 1) * m <= n * m;
  }

  /** Entry k pairs atmosphere row k div m with extremophile row k mod m. */
  lemma PairsDivMod(atmosphere: seq<Atmosphere>, extremophiles: seq<Extremophile>, k: nat)
    requires k < |atmosphere| * |extremophiles|
    ensures |extremophiles| > 0 && k / |extremophiles| < |atmosphere|
    ensures Pairs(atmosphere, extremophiles)[k] ==
            (atmosphere[k / |extremophiles|], extremophiles[k % |extremophiles|])
  {
    var m := |extremophiles|;
    assert m > 0;
    var i, j := k / m, k % m;
    assert k == i * m + j;
    MulCancel(i, |atmosphere|, m);
    PairsAt(atmosphere, extremophiles, i, j);
    assert Pairs(atmosphere, extremophiles)[i * m + j] == Pairs(atmosphere, extremophiles)[k];
  }

  /** The arithmetic of moving on to the next row of an n-by-m product. */
  lemma NextRow(i: nat, m: nat, n: nat)
    requires i < n
    ensures (i + 1) * m == i * m + m <= n * m
  {
    var d: nat := n - (i + 1);
    assert (i + 1) * m == i * m + m;
    assert n * m == (i + 1) * m + d * m by { assert n == (i + 1) + d; }
    assert d * m >= 0;
  }

  lemma MulCancel(a: int, b: int, m: int)
    requires m > 0 && a * m < b * m
    ensures a < b
  {
  }

  /**
   * The record literal of lines 41-46: its three subscripts are evaluated in order, outside the
   * try block, so a missing one raises an uncaught KeyError.
   */
  function Record(a: Atmosphere, m: Extremophile, habitable: bool): (r: Lookup<Verdict>)
    ensures r.KeyError? <==> a.name.None? || a.altitude.None? || m.name.None?
    ensures r.KeyError? ==> r.column == Nome || r.column == AltitudineKm
    ensures r.KeyError? ==> (r.column == AltitudineKm <==> a.name.Some? && a.altitude.None?)
    ensures r.Found? ==> r.value == Verdict(a.name.value, a.altitude.value, m.name.value, habitable)
  {
    if a.name.None? then KeyError(Nome)
    else if a.altitude.None? then KeyError(AltitudineKm)
    else if m.name.None? then KeyError(Nome)
    else Found(Verdict(a.name.value, a.altitude.value, m.name.value, habitable))
  }

  /** One iteration of the inner loop: the try block, then the record literal of lines 41-46. */
  function Judge(a: Atmosphere, m: Extremophile): (r: Step)
    ensures r.Abort? <==> Evaluate(a, m).KeyError?
    ensures r.Raise? <==> Evaluate(a, m).Found? && (a.name.None? || a.altitude.None? || m.name.None?)
    ensures r.Raise? ==> r.column == Nome || r.column == AltitudineKm
    ensures r.Raise? ==> (r.column == AltitudineKm <==> a.name.Some? && a.altitude.None?)
    ensures r.Emit? ==> r.verdict == Verdict(a.name.value, a.altitude.value, m.name.value, Evaluate(a, m).value)
  {
    match Evaluate(a, m)
    case KeyError(_) => Abort
    case Found(h) =>
      match Record(a, m, h)
      case KeyError(c) => Raise(c)
      case Found(v) => Emit(v)
  }

  /** What the inner loop does with each pair, in visiting order. */
  function Steps(pairs: seq<(Atmosphere, Extremophile)>): (r: seq<Step>)
    ensures |r| == |pairs|
  {
    if pairs == [] then [] else [Judge(pairs[0].0, pairs[0].1)] + Steps(pairs[1..])
  }

  /** Step k is the judgement of pair k. */
  lemma {:induction false} StepsAt(pairs: seq<(Atmosphere, Extremophile)>, k: nat)
    requires k < |pairs|
    ensures Steps(pairs)[k] == Judge(pairs[k].0, pairs[k].1)
  {
    if k > 0 {
      StepsAt(pairs[1..], k - 1);
    }
  }

  /**
   * Runs the remaining steps after `acc` has been collected: an `Abort` returns the empty
   * table, a `Raise` ends the script, an `Emit` appends its record.
   */
  function Run(steps: seq<Step>, acc: seq<Verdict>): Analysis
  {
    if steps == [] then Table(acc)
    else match steps[0]
      case Abort => Table([])
      case Raise(c) => Crash(c)
      case Emit(v) => Run(steps[1..], acc + [v])
  }

  /** One step of a run, taken at position k of the step list. */
  lemma RunAt(steps: seq<Step>, k: nat, acc: seq<Verdict>)
    requires k < |steps|
    ensures steps[k].Abort? ==> Run(steps[k..], acc) == Table([])
    ensures steps[k].Raise? ==> Run(steps[k..], acc) == Crash(steps[k].column)
    ensures steps[k].Emit? ==> Run(steps[k..], acc) == Run(steps[k + 1..], acc + [steps[k].verdict])
  {
    assert steps[k..][0] == steps[k] && steps[k..][1..] == steps[k + 1..];
  }

  /** All or nothing: a run yields the empty table, or `acc` followed by one record per step. */
  lemma {:induction false} RunAllOrNothing(steps: seq<Step>, acc: seq<Verdict>)
    ensures Run(steps, acc).Table? ==>
      Run(steps, acc).rows == [] ||
      (|Run(steps, acc).rows| == |acc| + |steps| && Run(steps, acc).rows[..|acc|] == acc)
  {
    if steps != [] && steps[0].Emit? {
      var v := steps[0].verdict;
      RunAllOrNothing(steps[1..], acc + [v]);
      var r := Run(steps[1..], acc + [v]);
      if r.Table? && r.rows != [] {
        assert r.rows[..|acc|] == (acc + [v])[..|acc|];
      }
    }
  }

  /** The reference result of the matcher: never a partial table. */
  function Analyze(atmosphere: seq<Atmosphere>, extremophiles: seq<Extremophile>): (r: Analysis)
    ensures r.Table? ==> r.rows == [] || |r.rows| == |Pairs(atmosphere, extremophiles)|
  {
    RunAllOrNothing(Steps(Pairs(atmosphere, extremophiles)), []);
    Run(Steps(Pairs(atmosphere, extremophiles)), [])
  }

  /** The record the matcher emits for a pair whose columns are all present. */
  function Entry(a: Atmosphere, m: Extremophile): Verdict
    requires AtmosphereComplete(a) && ExtremophileComplete(m)
  {
    Verdict(a.name.value, a.altitude.value, m.name.value, Habitable(a, m))
  }

  /** A pair whose columns are all present is emitted with its verdict. */
  lemma JudgeComplete(a: Atmosphere, m: Extremophile)
    requires AtmosphereComplete(a) && ExtremophileComplete(m)
    ensures Judge(a, m) == Emit(Entry(a, m))
  {
    EvaluateComplete(a, m);
  }

  /** When every step emits, the run appends one verdict per step, in order. */
  lemma {:induction false} RunAllEmit(steps: seq<Step>, acc: seq<Verdict>)
    requires forall k :: 0 <= k < |steps| ==> steps[k].Emit?
    ensures Run(steps, acc).Table?
    ensures |Run(steps, acc).rows| == |acc| + |steps|
    ensures Run(steps, acc).rows[..|acc|] == acc
    ensures forall k :: 0 <= k < |steps| ==> Run(steps, acc).rows[|acc| + k] == steps[k].verdict
  {
    if steps != [] {
      var v := steps[0].verdict;
      assert forall k :: 0 <= k < |steps[1..]| ==> steps[1..][k] == steps[k + 1];
      RunAllEmit(steps[1..], acc + [v]);
      var rows := Run(steps, acc).rows;
      assert rows == Run(steps[1..], acc + [v]).rows;
      assert rows[..|acc|] == (acc + [v])[..|acc|];
      forall k | 0 <= k < |steps|
        ensures rows[|acc| + k] == steps[k].verdict
      {
        if k > 0 {
          assert rows[|acc + [v]| + (k - 1)] == steps[1..][k - 1].verdict;
        } else {
          assert rows[..|acc| + 1] == acc + [v];
        }
      }
    }
  }

  /**
   * The first step that does not emit decides the outcome: a caught KeyError discards every
   * verdict collected so far, an uncaught one ends the run.
   */
  lemma {:induction false} RunFirstFault(steps: seq<Step>, acc: seq<Verdict>, k: nat)
    requires k < |steps|
    requires forall j :: 0 <= j < k ==> steps[j].Emit?
    requires !steps[k].Emit?
    ensures steps[k].Abort? ==> Run(steps, acc) == Table([])
    ensures steps[k].Raise? ==> Run(steps, acc) == Crash(steps[k].column)
  {
    if k > 0 {
      assert forall j :: 0 <= j < |steps[1..]| ==> steps[1..][j] == steps[j + 1];
      RunFirstFault(steps[1..], acc + [steps[0].verdict], k - 1);
    }
  }

  /** A run that yields a non-empty table emitted at every one of its steps. */
  lemma {:induction false} RunTableAllEmit(steps: seq<Step>, acc: seq<Verdict>)
    requires Run(steps, acc).Table? && Run(steps, acc).rows != []
    ensures forall k :: 0 <= k < |steps| ==> steps[k].Emit?
  {
    if steps != [] {
      RunTableAllEmit(steps[1..], acc + [steps[0].verdict]);
      forall k | 1 <= k < |steps|
        ensures steps[k].Emit?
      {
        assert steps[k] == steps[1..][k - 1];
      }
    }
  }

  /**
   * With every column present: one verdict per (profile, microbe) pair, |profiles| * |microbes|
   * in all, entry k built from profile k div m and microbe k mod m (m the number of microbes).
   */
  lemma AnalyzeComplete(atmosphere: seq<Atmosphere>, extremophiles: seq<Extremophile>)
    requires forall i :: 0 <= i < |atmosphere| ==> AtmosphereComplete(atmosphere[i])
    requires forall j :: 0 <= j < |extremophiles| ==> ExtremophileComplete(extremophiles[j])
    ensures Analyze(atmosphere, extremophiles).Table?
    ensures |Analyze(atmosphere, extremophiles).rows| == |atmosphere| * |extremophiles|
    ensures forall k :: 0 <= k < |atmosphere| * |extremophiles| ==>
              |extremophiles| > 0 && k / |extremophiles| < |atmosphere| &&
              Analyze(atmosphere, extremophiles).rows[k] ==
                Entry(atmosphere[k / |extremophiles|], extremophiles[k % |extremophiles|])
  {
    var steps := Steps(Pairs(atmosphere, extremophiles));
    var m := |extremophiles|;
    AllPairsEmit(atmosphere, extremophiles);
    RunAllEmit(steps, []);
    var rows := Analyze(atmosphere, extremophiles).rows;
    forall k | 0 <= k < |steps|
      ensures m > 0 && k / m < |atmosphere| && rows[k] == Entry(atmosphere[k / m], extremophiles[k % m])
    {
      PairsDivMod(atmosphere, extremophiles, k);
      assert rows[0 + k] == steps[k].verdict;
    }
  }

  /** With every column present, every visited pair is emitted with its verdict. */
  lemma AllPairsEmit(atmosphere: seq<Atmosphere>, extremophiles: seq<Extremophile>)
    requires forall i :: 0 <= i < |atmosphere| ==> AtmosphereComplete(atmosphere[i])
    requires forall j :: 0 <= j < |extremophiles| ==> ExtremophileComplete(extremophiles[j])
    ensures forall k :: 0 <= k < |Pairs(atmosphere, extremophiles)| ==>
              var p := Pairs(atmosphere, extremophiles)[k];
              AtmosphereComplete(p.0) && ExtremophileComplete(p.1) &&
              Steps(Pairs(atmosphere, extremophiles))[k] == Emit(Entry(p.0, p.1))
  {
    var pairs := Pairs(atmosphere, extremophiles);
    forall k | 0 <= k < |pairs|
      ensures AtmosphereComplete(pairs[k].0) && ExtremophileComplete(pairs[k].1)
      ensures Steps(pairs)[k] == Emit(Entry(pairs[k].0, pairs[k].1))
    {
      PairsDivMod(atmosphere, extremophiles, k);
      JudgeComplete(pairs[k].0, pairs[k].1);
      StepsAt(pairs, k);
    }
  }

  /**
   * Any non-empty table, including one built while some column is absent: entry k copies the
   * body name and altitude of profile k div m and the name of microbe k mod m, with that pair's
   * verdict.
   */
  lemma TableEntry(atmosphere: seq<Atmosphere>, extremophiles: seq<Extremophile>, k: nat)
    requires Analyze(atmosphere, extremophiles).Table?
    requires k < |Analyze(atmosphere, extremophiles).rows|
    ensures |extremophiles| > 0 && k / |extremophiles| < |atmosphere|
    ensures var a, m := atmosphere[k / |extremophiles|], extremophiles[k % |extremophiles|];
            a.name.Some? && a.altitude.Some? && m.name.Some? && Evaluate(a, m).Found? &&
            Analyze(atmosphere, extremophiles).rows[k] ==
              Verdict(a.name.value, a.altitude.value, m.name.value, Evaluate(a, m).value)
  {
    var pairs := Pairs(atmosphere, extremophiles);
    var steps := Steps(pairs);
    RunTableAllEmit(steps, []);
    RunAllEmit(steps, []);
    PairsDivMod(atmosphere, extremophiles, k);
    StepsAt(pairs, k);
    assert Analyze(atmosphere, extremophiles).rows[0 + k] == steps[k].verdict;
  }

  /**
   * A missing column in the first pair that reaches it yields the empty table, even though the
   * pairs before it had verdicts.
   */
  lemma AnalyzeMissingColumn(atmosphere: seq<Atmosphere>, extremophiles: seq<Extremophile>, k: nat)
    requires k < |atmosphere| * |extremophiles|
    requires forall j :: 0 <= j < k ==>
               Judge(Pairs(atmosphere, extremophiles)[j].0, Pairs(atmosphere, extremophiles)[j].1).Emit?
    requires Evaluate(Pairs(atmosphere, extremophiles)[k].0, Pairs(atmosphere, extremophiles)[k].1).KeyError?
    ensures Analyze(atmosphere, extremophiles) == Table([])
  {
    var pairs := Pairs(atmosphere, extremophiles);
    forall j | 0 <= j <= k
      ensures Steps(pairs)[j] == Judge(pairs[j].0, pairs[j].1)
    {
      StepsAt(pairs, j);
    }
    RunFirstFault(Steps(pairs), [], k);
  }

  /**
   * The nested loops of analyze_habitability: profiles outer, microbes inner, one appended
   * record per pair, an empty table on the first caught KeyError.
   */
  method AnalyzeHabitability(atmosphere: seq<Atmosphere>, extremophiles: seq<Extremophile>)
    returns (result: Analysis)
    ensures result == Analyze(atmosphere, extremophiles)
  {
    var results: seq<Verdict> := [];
    ghost var pairs := Pairs(atmosphere, extremophiles);
    ghost var steps := Steps(pairs);
    ghost var k := 0;
    for i := 0 to |atmosphere|
      invariant k == i * |extremophiles| && k <= |steps|
      invariant Run(steps[k..], results) == Analyze(atmosphere, extremophiles)
    {
      var atmo := atmosphere[i];
      for j := 0 to |extremophiles|
        invariant k == i * |extremophiles| + j && k <= |steps|
        invariant Run(steps[k..], results) == Analyze(atmosphere, extremophiles)
      {
        var microbe := extremophiles[j];
        PairsAt(atmosphere, extremophiles, i, j);
        StepsAt(pairs, k);
        RunAt(steps, k, results);
        var habitable := Evaluate(atmo, microbe);
        if habitable.KeyError? {
          return Table([]);
        }
        var record := Record(atmo, microbe, habitable.value);
        if record.KeyError? {
          return Crash(record.column);
        }
        results := results + [record.value];
        k := k + 1;
      }
      NextRow(i, |extremophiles|, |atmosphere|);
    }
    assert steps[k..] == [];
    return Table(results);
  }

  // ---------------------------------------------------------------------------------------------
  // main: report the habitable pairs and save the table
  // ---------------------------------------------------------------------------------------------

  /** The habitable records of a table, in table order. */
  function Survivors(rows: seq<Verdict>): (r: seq<Verdict>)
    ensures |r| <= |rows|
    ensures forall k :: 0 <= k < |r| ==> r[k].habitable
  {
    if rows == [] then []
    else Survivors(rows[..|rows| - 1]) + (if rows[|rows| - 1].habitable then [rows[|rows| - 1]] else [])
  }

  /** Survivors distributes over concatenation, so it keeps the habitable records in table order. */
  lemma {:induction false} SurvivorsAppend(front: seq<Verdict>, back: seq<Verdict>)
    ensures Survivors(front + back) == Survivors(front) + Survivors(back)
  {
    if back != [] {
      var rest, last := back[..|back| - 1], back[|back| - 1];
      SurvivorsAppend(front, rest);
      assert (front + back)[..|front + back| - 1] == front + rest;
    } else {
      assert front + back == front;
    }
  }

  /** Survivors keeps every habitable record, as often as it occurs, and nothing else. */
  lemma {:induction false} SurvivorsExact(rows: seq<Verdict>)
    ensures forall v :: multiset(Survivors(rows))[v] == if v.habitable then multiset(rows)[v] else 0
    ensures forall v :: v in Survivors(rows) <==> v in rows && v.habitable
  {
    if rows != [] {
      var front, last := rows[..|rows| - 1], rows[|rows| - 1];
      SurvivorsExact(front);
      assert rows == front + [last];
      assert multiset(rows) == multiset(front) + multiset{last};
    }
  }

  /** Whether a profile lacks one of the columns the plot reads from it (lines 53-54). */
  predicate ProfileCellAbsent(a: Atmosphere, c: Column)
  {
    match c
    case Nome => a.name.None?
    case Pressione => a.pressure.None?
    case Temperatura => a.temperature.None?
    case _ => false
  }

  /**
   * The atmosphere lookups of plot_habitability (lines 53-54): `groupby('Nome')`, then the
   * pressure and temperature of each profile.  The KeyError raised, or None.
   */
  function ProfilePlotFault(atmosphere: seq<Atmosphere>): (r: Option<Column>)
    ensures r.None? <==> forall i :: 0 <= i < |atmosphere| ==>
              atmosphere[i].name.Some? && atmosphere[i].pressure.Some? && atmosphere[i].temperature.Some?
    ensures r.Some? ==> r.value in {Nome, Pressione, Temperatura}
    ensures r.Some? ==> exists i :: 0 <= i < |atmosphere| && ProfileCellAbsent(atmosphere[i], r.value)
    ensures r == Some(Nome) <==> exists i :: 0 <= i < |atmosphere| && atmosphere[i].name.None?
  {
    if exists i :: 0 <= i < |atmosphere| && atmosphere[i].name.None? then Some(Nome)
    else ProfileCellsFault(atmosphere)
  }

  /**
   * The pressure and temperature lookups of line 54, profile by profile: the first profile that
   * lacks one of them raises KeyError, on the pressure when both are missing.
   */
  function ProfileCellsFault(atmosphere: seq<Atmosphere>): (r: Option<Column>)
    ensures r.None? <==> forall i :: 0 <= i < |atmosphere| ==>
              atmosphere[i].pressure.Some? && atmosphere[i].temperature.Some?
    ensures r.Some? ==> r.value in {Pressione, Temperatura}
    ensures r.Some? ==> exists i :: 0 <= i < |atmosphere| && ProfileCellAbsent(atmosphere[i], r.value) &&
                          (r.value == Temperatura ==> atmosphere[i].pressure.Some?) &&
                          forall k :: 0 <= k < i ==> atmosphere[k].pressure.Some? && atmosphere[k].temperature.Some?
  {
    if atmosphere == [] then None
    else if atmosphere[0].pressure.None? then Some(Pressione)
    else if atmosphere[0].temperature.None? then Some(Temperatura)
    else
      var rest := ProfileCellsFault(atmosphere[1..]);
      assert rest.Some? ==> exists i :: 1 <= i < |atmosphere| && ProfileCellAbsent(atmosphere[i], rest.value) &&
                              (rest.value == Temperatura ==> atmosphere[i].pressure.Some?) &&
                              forall k :: 0 <= k < i ==> atmosphere[k].pressure.Some? && atmosphere[k].temperature.Some?
      by {
        if rest.Some? {
          var i :| 0 <= i < |atmosphere[1..]| && ProfileCellAbsent(atmosphere[1..][i], rest.value) &&
                   (rest.value == Temperatura ==> atmosphere[1..][i].pressure.Some?) &&
                   forall k :: 0 <= k < i ==> atmosphere[1..][k].pressure.Some? && atmosphere[1..][k].temperature.Some?;
          assert atmosphere[1..][i] == atmosphere[i + 1];
          assert forall k :: 1 <= k < i + 1 ==> atmosphere[k] == atmosphere[1..][k - 1];
        }
      }
      rest
  }

  /** The order in which lines 57-62 read a microbe's cells: the corner, the width, the height, the name. */
  const MicrobePlotColumns: seq<Column> := [PressioneMin, TemperaturaMin, PressioneMax, TemperaturaMax, Nome]

  /** Whether a microbe lacks one of the columns the plot reads from it (lines 57-62). */
  predicate MicrobeCellAbsent(m: Extremophile, c: Column)
  {
    match c
    case PressioneMin => m.pressureMin.None?
    case TemperaturaMin => m.temperatureMin.None?
    case PressioneMax => m.pressureMax.None?
    case TemperaturaMax => m.temperatureMax.None?
    case Nome => m.name.None?
    case _ => false
  }

  /**
   * The lookups of lines 57-62 for one microbe: the KeyError of the first column, in reading
   * order, that the microbe lacks, or None.
   */
  function MicrobeFault(m: Extremophile): (r: Option<Column>)
    ensures r.None? <==> (m.pressureMin.Some? && m.pressureMax.Some? &&
                          m.temperatureMin.Some? && m.temperatureMax.Some? && m.name.Some?)
    ensures r.Some? ==> exists n :: 0 <= n < |MicrobePlotColumns| && r.value == MicrobePlotColumns[n] &&
                          MicrobeCellAbsent(m, r.value) &&
                          forall k :: 0 <= k < n ==> !MicrobeCellAbsent(m, MicrobePlotColumns[k])
  {
    if m.pressureMin.None? then
      assert MicrobePlotColumns[0] == PressioneMin;
      Some(PressioneMin)
    else if m.temperatureMin.None? then
      assert MicrobePlotColumns[1] == TemperaturaMin;
      Some(TemperaturaMin)
    else if m.pressureMax.None? then
      assert MicrobePlotColumns[2] == PressioneMax;
      Some(PressioneMax)
    else if m.temperatureMax.None? then
      assert MicrobePlotColumns[3] == TemperaturaMax;
      Some(TemperaturaMax)
    else if m.name.None? then
      assert MicrobePlotColumns[4] == Nome;
      Some(Nome)
    else None
  }

  /**
   * The extremophile lookups of plot_habitability (lines 56-65), microbe by microbe: the
   * KeyError of the first microbe that lacks a plotted column, or None.
   */
  function MicrobePlotFault(extremophiles: seq<Extremophile>): (r: Option<Column>)
    ensures r.None? <==> forall j :: 0 <= j < |extremophiles| ==>
              extremophiles[j].pressureMin.Some? && extremophiles[j].pressureMax.Some? &&
              extremophiles[j].temperatureMin.Some? && extremophiles[j].temperatureMax.Some? &&
              extremophiles[j].name.Some?
    ensures r.Some? ==> r.value in {PressioneMin, TemperaturaMin, PressioneMax,
                                    TemperaturaMax, Nome}
    ensures r.Some? ==> exists j :: 0 <= j < |extremophiles| && r == MicrobeFault(extremophiles[j]) &&
                          MicrobeCellAbsent(extremophiles[j], r.value) &&
                          forall k :: 0 <= k < j ==> MicrobeFault(extremophiles[k]).None?
  {
    if extremophiles == [] then None
    else if MicrobeFault(extremophiles[0]).Some? then MicrobeFault(extremophiles[0])
    else
      var rest := MicrobePlotFault(extremophiles[1..]);
      assert rest.Some? ==> exists j :: 1 <= j < |extremophiles| && rest == MicrobeFault(extremophiles[j]) &&
                              MicrobeCellAbsent(extremophiles[j], rest.value) &&
                              forall k :: 0 <= k < j ==> MicrobeFault(extremophiles[k]).None?
      by {
        if rest.Some? {
          var j :| 0 <= j < |extremophiles[1..]| && rest == MicrobeFault(extremophiles[1..][j]) &&
                   MicrobeCellAbsent(extremophiles[1..][j], rest.value) &&
                   forall k :: 0 <= k < j ==> MicrobeFault(extremophiles[1..][k]).None?;
          assert extremophiles[1..][j] == extremophiles[j + 1];
          assert forall k :: 1 <= k < j + 1 ==> extremophiles[k] == extremophiles[1..][k - 1];
        }
      }
      rest
  }

  /**
   * plot_habitability: the KeyError of the first plotted column some row lacks, or None.  The
   * profiles are plotted before the microbes, and the column named is one that is missing.
   */
  function PlotFault(atmosphere: seq<Atmosphere>, extremophiles: seq<Extremophile>): (r: Option<Column>)
    ensures r.None? <==> ProfilePlotFault(atmosphere).None? && MicrobePlotFault(extremophiles).None?
    ensures ProfilePlotFault(atmosphere).Some? ==> r == ProfilePlotFault(atmosphere)
    ensures r.Some? ==> (exists i :: 0 <= i < |atmosphere| && ProfileCellAbsent(atmosphere[i], r.value)) ||
                        (exists j :: 0 <= j < |extremophiles| && MicrobeCellAbsent(extremophiles[j], r.value))
  {
    if ProfilePlotFault(atmosphere).Some? then ProfilePlotFault(atmosphere)
    else MicrobePlotFault(extremophiles)
  }

  /**
   * The plot reads Pressione_max(atm) even where the matcher's short circuit never did: a
   * microbe table without that column, matched against a profile below its minimum pressure,
   * gives a non-empty all-false table, and then the plot raises KeyError before anything is
   * printed or saved.
   */
  lemma PlotReadsShortCircuitedColumn()
    ensures var a := Atmosphere(Some("Earth"), Some(Finite(0.0)), Some(Finite(1.0)), Some(Finite(20.0)),
                                Some(Finite(50.0)), Some(Finite(7.0)), Some(Finite(0.0)), Some(Finite(0.0)));
            var m := Extremophile(Some("Piezophile"), Some(Finite(5.0)), None, Some(Finite(0.0)),
                                  Some(Finite(40.0)), Some(Finite(20.0)), Some(Finite(80.0)), Some(Finite(5.0)),
                                  Some(Finite(9.0)), Some(Finite(10.0)), Some(Finite(10.0)));
            Analyze([a], [m]) == Table([Verdict("Earth", Finite(0.0), "Piezophile", false)]) &&
            PlotFault([a], [m]) == Some(PressioneMax)
  {
    var a := Atmosphere(Some("Earth"), Some(Finite(0.0)), Some(Finite(1.0)), Some(Finite(20.0)),
                        Some(Finite(50.0)), Some(Finite(7.0)), Some(Finite(0.0)), Some(Finite(0.0)));
    var m := Extremophile(Some("Piezophile"), Some(Finite(5.0)), None, Some(Finite(0.0)),
                          Some(Finite(40.0)), Some(Finite(20.0)), Some(Finite(80.0)), Some(Finite(5.0)),
                          Some(Finite(9.0)), Some(Finite(10.0)), Some(Finite(10.0)));
    PairsAt([a], [m], 0, 0);
    assert Pairs([a], [m]) == [(a, m)];
    assert Judge(a, m) == Emit(Verdict("Earth", Finite(0.0), "Piezophile", false));
  }

  /** What main leaves behind: the saved table and the records it prints, a plot crash, or nothing. */
  datatype Summary = Written(table: seq<Verdict>, reported: seq<Verdict>) | PlotCrash(column: Column) | NothingWritten

  /**
   * main after the matcher returned a table: an empty table writes and plots nothing; otherwise
   * the plot runs first, and a column it lacks ends the script with nothing printed or saved;
   * otherwise every habitable record is reported, in order, and the whole table is saved.
   */
  method Summarize(atmosphere: seq<Atmosphere>, extremophiles: seq<Extremophile>, rows: seq<Verdict>)
    returns (summary: Summary)
    ensures rows == [] <==> summary == NothingWritten
    ensures summary.PlotCrash? <==> rows != [] && PlotFault(atmosphere, extremophiles).Some?
    ensures summary.PlotCrash? ==> summary.column == PlotFault(atmosphere, extremophiles).value
    ensures summary.Written? ==> summary.table == rows && summary.reported == Survivors(rows)
  {
    if rows == [] {
      return NothingWritten;
    }
    var fault := PlotFault(atmosphere, extremophiles);
    if fault.Some? {
      return PlotCrash(fault.value);
    }
    var reported: seq<Verdict> := [];
    for n := 0 to |rows|
      invariant reported == Survivors(rows[..n])
    {
      assert rows[..n + 1][..n] == rows[..n];
      if rows[n].habitable {
        reported := reported + [rows[n]];
      }
    }
    assert rows[..|rows|] == rows;
    return Written(rows, reported);
  }
}
