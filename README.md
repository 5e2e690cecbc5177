# ExoBioma core in Dafny

A Dafny model of the two computational cores of ExoBioma:

- **The habitability matcher** of `exobioma.py` (module `Habitability`, `habitability.dfy`). It pairs
  every atmospheric-profile row with every extremophile-tolerance row, profiles in the outer loop and
  microbes in the inner one. For each pair it evaluates a six-leg predicate: closed intervals on
  pressure, temperature, humidity and pH, and upper bounds only on X-ray and UV radiation. It emits
  one `{Corpo_celeste, Altitudine, Microrganismo, Abitabile}` record per pair. A column missing from
  either table is a `None` field; looking it up raises KeyError, which names a `Column` (`Header`
  gives its name in the CSV file). Inside the predicate that KeyError
  is caught and the matcher returns an empty table. While building the record it is not caught
  (`Crash`). NaN cells are `Float.NaN`, and every comparison with them is false, as in Python.
  `main`'s reporting step (`Summarize`) does nothing when the table is empty. Otherwise it first
  draws the plot, which looks up columns of its own and raises KeyError when one is missing; then
  it prints the habitable records and saves the table.
- **The decision and bookkeeping parts of the exoplanet estimator** `mpgen2.py` (module
  `Estimator`, `estimator.dfy`). This covers:
  - the fallback to Earth and Sun values for NaN catalogue cells;
  - the greenhouse-gas weight list;
  - the case-insensitive spectral-class factor lookup;
  - the clamping of the sampled day and night temperatures and of the pressures;
  - the (min, max) reductions;
  - the per-row policy: skip the row on ValueError, fill it with nulls when mass, radius or
    insolation is zero.

  The radiative formulas are the function-valued parameter `Physics`. The random draws are the
  input `Draws`: standard-normal variates for the day and night samples, and raw log-normal draws
  for the pressures. `CalculatePressureRange` works on an `array` pass by pass, as the numpy code
  does (`*=`, `/=`, `clip`).

`numbers.dfy` (module `Numbers`) holds `Option`, `Float` and Python's `<=` on floats.

Where the code behaves differently from what its comments and names suggest, the model follows the
code:

- A missing spectral type becomes `"G2V"` and gets factor 0.1, and so does a non-string type. Only
  a string whose first letter is not in the table gets factor 1.
- A mass, radius or insolation that `float()` rejects raises ValueError, so the row is **skipped**.
  The null-filled row comes only from a value of zero, which fails the truthiness test on line 113.
  A NaN cell takes the Earth default.
- A negative day or night temperature centre makes `np.random.normal` raise ValueError (its scale
  would be negative), which also skips the row.
- `Nome` and `Altitudine(km)` are read outside the `try`, so a missing one ends the script instead
  of returning the empty table.

## Model

| member | source | states |
|---|---|---|
| `Habitability.Evaluate` | exobioma.py:24-33 | the try block's expression: with all sixteen compared columns present no KeyError is raised, and a true verdict is reached only after every one of them was read |
| `Habitability.LegsChain` | exobioma.py:25-32 | folding the six legs left to right, each leg looked up and compared only when the legs before it held, gives exactly the `and` chain of the try block |
| `Habitability.EvaluateComplete` | exobioma.py:24-32 | with every column present, the try block yields exactly the six-leg verdict and raises no KeyError |
| `Habitability.HabitableIff` | exobioma.py:25-32 | for finite readings the verdict is true iff pmin≤p≤pmax, tmin≤t≤tmax, hmin≤h≤hmax, phmin≤ph≤phmax, x≤xmax and uv≤uvmax |
| `Habitability.SingleFault` | exobioma.py:25-32 | any one failing leg makes the verdict false |
| `Habitability.BoundsInclusive` | exobioma.py:26-29 | a reading equal to the min or max bound passes an interval leg; one just outside fails it |
| `Habitability.RadiationUpperBoundOnly` | exobioma.py:25-32 | once the four interval legs hold, the verdict is true iff x ≤ xmax and uv ≤ uvmax: the radiation legs have no lower bound, so zero or negative readings pass |
| `Habitability.NaNNotHabitable` | exobioma.py:25-32 | a NaN in any of the sixteen compared cells makes the pair not habitable |
| `Habitability.ExampleVerdicts` | exobioma.py:25-32 | an Earth-like profile suits a 0.5-2 atm microbe and not a 5-10 atm one |
| `Habitability.KeyErrorNamesMissingColumn` | exobioma.py:24-33 | a KeyError always names a compared column that is absent; some column is absent exactly when not all sixteen are present |
| `Habitability.FailingLegShortCircuits` | exobioma.py:25-32 | for any leg i: once the legs before it have been read and leg i comes out false (for an interval leg, `lo <= x` failing needs no `hi`), the verdict is false whatever later columns are missing |
| `Habitability.LateKeyErrorMeansEarlierLegsHeld` | exobioma.py:25-33 | for any leg i: a KeyError raised once the legs before i have been read is reached only because every one of those legs held |
| `Habitability.Pairs` | exobioma.py:22-23 | the nested iteration visits \|atmosphere\| × \|extremophiles\| pairs |
| `Habitability.PairsAt` | exobioma.py:22-23 | pair (i, j) is visited at position i·m + j, which lies inside the cross product |
| `Habitability.PairsDivMod` | exobioma.py:22-23 | position k pairs atmosphere row k div m with extremophile row k mod m |
| `Habitability.Record` | exobioma.py:41-46 | the record literal raises KeyError exactly when atmo's `Nome` or `Altitudine(km)` or the microbe's `Nome` is missing, naming `Altitudine(km)` exactly when atmo's `Nome` is present and its altitude is not; otherwise it copies those three cells and the verdict |
| `Habitability.Judge` | exobioma.py:24-46 | one inner iteration: it aborts exactly on a KeyError in the predicate; it raises exactly when the predicate has a value but a record column is missing, naming the column as `Record` does; otherwise it emits `{Corpo_celeste: atmo Nome, Altitudine: atmo Altitudine(km), Microrganismo: microbe Nome, Abitabile: the verdict}` |
| `Habitability.StepsAt` | exobioma.py:22-46 | the k-th step of the run is the judgement of the k-th visited pair |
| `Habitability.RunAt` | exobioma.py:33-46 | one loop iteration: an abort returns the empty table, a raise ends the run with its column, an emit appends its record and goes on with the next pair |
| `Habitability.RunAllOrNothing` | exobioma.py:21-47 | a run over the remaining steps never yields a partial table: it is empty, or the records collected so far followed by one record per remaining step |
| `Habitability.Analyze` | exobioma.py:19-47 | the matcher's result is an uncaught KeyError, the empty table, or a table with one record per (profile, microbe) pair |
| `Habitability.RunAllEmit` | exobioma.py:41-46 | when every step emits, record \|acc\| + k is step k's record, after those already collected |
| `Habitability.RunTableAllEmit` | exobioma.py:33-46 | a non-empty table is only returned when every pair emitted its record |
| `Habitability.RunFirstFault` | exobioma.py:33-46 | the first step that does not emit decides the result: a caught KeyError gives the empty table, an uncaught one ends the run with its column |
| `Habitability.AnalyzeComplete` | exobioma.py:19-47 | with all columns present the table has \|atmosphere\| × \|extremophiles\| records; record k copies the body name and altitude of atmosphere row k div m, the name of microbe row k mod m, and that pair's verdict |
| `Habitability.TableEntry` | exobioma.py:22-46 | in any non-empty table, even one built while a short-circuited column is absent, record k holds atmosphere row k div m's `Nome` and `Altitudine(km)`, microbe row k mod m's `Nome`, and that pair's verdict |
| `Habitability.AnalyzeMissingColumn` | exobioma.py:33-39 | a KeyError in the predicate returns the empty table and discards every verdict computed before it |
| `Habitability.AnalyzeHabitability` | exobioma.py:19-47 | the two nested loops with append and early return compute exactly the reference result `Analyze` |
| `Habitability.Survivors` | exobioma.py:91-93 | the records main reports: no more than the table holds, all of them habitable |
| `Habitability.SurvivorsExact` | exobioma.py:91-93 | the reported records are exactly the habitable ones, each as often as in the table |
| `Habitability.SurvivorsAppend` | exobioma.py:91-93 | filtering a table split in two gives the filtered first part followed by the filtered second part, so the habitable records are reported in table order |
| `Habitability.ProfilePlotFault` | exobioma.py:53-54 | the plot's profile lookups raise KeyError exactly when some profile lacks `Nome`, `Pressione(atm)` or `Temperatura(°C)`; the error names a column that some profile lacks, and names `Nome` exactly when some profile lacks its name |
| `Habitability.ProfileCellsFault` | exobioma.py:54 | the pressure and temperature lookups raise KeyError exactly when some profile lacks one of them; the error names a column the first such profile lacks, the pressure when both are missing |
| `Habitability.MicrobeFault` | exobioma.py:57-62 | one microbe's lookups raise KeyError exactly when it lacks a bound or its name; the error names the first missing column in reading order: `Pressione_min`, `Temperatura_min`, `Pressione_max`, `Temperatura_max`, `Nome` |
| `Habitability.MicrobePlotFault` | exobioma.py:56-65 | the plot's microbe lookups raise KeyError exactly when some microbe lacks one of its pressure or temperature bounds or its name; the error is the first faulting microbe's, and names a column that microbe lacks |
| `Habitability.PlotFault` | exobioma.py:49-65 | the plot raises KeyError exactly when a profile or a microbe lacks a plotted column; a profile fault comes first, and the column named is missing from some row |
| `Habitability.PlotReadsShortCircuitedColumn` | exobioma.py:26-32 | a microbe table without `Pressione_max(atm)`, against a profile below its minimum pressure, gives a non-empty all-false table, yet the plot raises KeyError on that column |
| `Habitability.Summarize` | exobioma.py:88-97 | an empty table writes and reports nothing; otherwise a plotted column that some row lacks ends the script before anything is printed or saved; otherwise the whole table is saved and the habitable records are reported in table order |
| `Estimator.Resolve` | mpgen2.py:90-97 | the conversions raise ValueError exactly when mass, radius or insolation is a value float() rejects |
| `Estimator.FallbackToDefaults` | mpgen2.py:91-97 | each NaN cell takes its Earth or Sun default (a missing type becomes "G2V"); each present value is kept, scaled to SI for the planet |
| `Estimator.GreenhouseWeights` | mpgen2.py:100-106 | the list holds only 0.1, 0.15 and 0.2; each is present exactly when the H2O, CO2 or CH4 flag equals 1; they appear in that order; at most 3 weights, sum in [0, 0.45] |
| `Estimator.CollectGreenhouse` | mpgen2.py:100-106 | the conditional appends build that list: at most 3 entries, sum at most 0.45 |
| `Estimator.SpectralFactor` | mpgen2.py:70-78 | the factor is a table value; a string whose upper-cased first letter is not in the table gets 1; a non-string gets the 'G' factor 0.1 |
| `Estimator.SpectralCaseInsensitive` | mpgen2.py:72-75 | a lower-case class letter gets the same factor as its upper-case form |
| `Estimator.Luminosities` | mpgen2.py:79-80 | a star of 5778 K and one solar mass has X-ray luminosity 1e-6·L_sun and UV luminosity 1e-2·L_sun, times the metallicity and spectral factors; with a non-negative metallicity factor, the X-ray value is non-negative for a non-negative mass and the UV value for a non-negative temperature |
| `Estimator.Flux` | mpgen2.py:119-121 | a source of the Sun's luminosity delivers exactly the planet's insolation; the flux is non-negative for non-negative luminosity and insolation |
| `Estimator.MissingTypeIsG` | mpgen2.py:74-77 | a missing type (replaced by "G2V" on line 97) gets 0.1, unlike the 1 an unknown letter gets |
| `Estimator.Clip` | mpgen2.py:42 | numpy clip: the result lies in [lo, hi]; it equals x when x is already inside, lo when x is below, hi when x is above; it is never above hi |
| `Estimator.NormalSamples` | mpgen2.py:62-63 | one sample per variate; a zero variate gives the centre; for a non-negative centre the samples are ordered like their variates |
| `Estimator.ClipDay` | mpgen2.py:64 | every day sample is in [0, 2000]: a sample already inside is unchanged, one below 0 becomes 0, one above 2000 becomes 2000 |
| `Estimator.ClipNight` | mpgen2.py:65 | every night sample is in [0, day[i]] for the same index i: a sample already inside is unchanged, one above day[i] becomes day[i], one below 0 becomes 0 |
| `Estimator.ToBar` | mpgen2.py:39-42 | a scaled and converted pressure sample lies in [1e-12, 1e4] bar |
| `Estimator.PressureBars` | mpgen2.py:37-42 | every pressure sample lies in [1e-12, 1e4] bar whatever the gravity and the draws |
| `Estimator.CalculatePressureRange` | mpgen2.py:33-43 | the in-place `*=`, `/=` and clip passes over the array leave exactly `PressureBars` of the draws |
| `Estimator.Min` | mpgen2.py:123-124 | the minimum is one of the samples and no sample is smaller |
| `Estimator.Max` | mpgen2.py:123-124 | the maximum is one of the samples and no sample is larger |
| `Estimator.TemperatureRangeOrdered` | mpgen2.py:123 | the reported range (min of night samples, max of day samples) satisfies 0 ≤ min ≤ max ≤ 2000 |
| `Estimator.EstimateRow` | mpgen2.py:90-138 | one row's outcome: a kept row carries the planet's name, and a row whose float() conversions all succeed and whose mass, radius or insolation is zero is never skipped |
| `Estimator.RowSkippedIff` | mpgen2.py:90-141 | a row is skipped exactly when a ValueError occurs: a rejected float() conversion, or a negative normal scale once the guard passes |
| `Estimator.RowRanges` | mpgen2.py:108-126 | a kept row keeps the planet name; its four ranges are all null exactly when mass, radius or insolation is zero; otherwise temperature and pressure ranges are ordered and clamped, and each flux range is one value |
| `Estimator.Estimates` | mpgen2.py:87-141 | the output table never has more rows than the catalogue |
| `Estimator.EstimatesOnePerRow` | mpgen2.py:87-141 | output rows plus skipped rows equal input rows; with none skipped, output row i is the result of input row i |
| `Estimator.EstimatesInOrder` | mpgen2.py:87-141 | the result of every kept row i sits at position i minus the number of rows skipped before it: kept rows keep their input order |
| `Estimator.EstimateOne` | mpgen2.py:90-138 | the statements of one row's try block (fallbacks, greenhouse appends, guard, sampling, clipping, pressure array, luminosities, flux, reductions) compute exactly the row policy `EstimateRow`, with `None` for the ValueError |
| `Estimator.EstimateAll` | mpgen2.py:87-141 | the row loop with `continue` on ValueError computes exactly the reference table `Estimates` |

## Left out

- Plotting is not modelled beyond the column lookups of `plot_habitability`, whose KeyError ends main. The drawing itself, and all of shell.py, temp-solsys.py and temp-comparative.py, are user interface only.
- ProfilePlotFault: the plot visits profiles group by group in `Nome` order, while the model scans them in row order. A missing column is missing from every row, so the column named is the same.
- CSV reading and writing are not modelled. The loaders' output is the input sequences; the saved table is `Summary.Written.table` or the result of `EstimateAll`.
- The diagnostic prints are not modelled: the table previews (exobioma.py:81-84), the KeyError report (exobioma.py:34-38), the failure message (exobioma.py:97) and mpgen2.py's output. The survivor lines printed at exobioma.py:91-93 are modelled, as `Summary.Written.reported`.
- The floating-point physics is not modelled. This covers the equilibrium, day and night temperature formulas, escape velocity, the greenhouse power law, `10**metallicity`, and shell.py's formulas. It enters as the uninterpreted `Physics` parameter. The unused scale height `H` (line 35) is not modelled.
- Random sampling is not modelled: the draws are inputs. A normal sample is `centre + 0.05·centre·z` for a given standard-normal `z`.
- Luminosities is the product of lines 79-80 over the reals; only its normalisation and sign are stated.
- Flux is line 119-121's `L / (4π d²)` with `d² = L_sun / (4π I)`, which over the reals is `L · I / L_sun`. For a negative insolation the source's `sqrt` gives NaN; the model gives a real.
- NormalSamples: the distribution of the draws is out of scope; only the affine map from standard-normal variates is modelled.
- Numbers are exact reals. Float rounding, infinities and NaN inside the sample arrays are not modelled. NaN is modelled only for the matcher's table cells and for the estimator's NaN-to-default checks.
- `albedo` and `efficiency_factor` are never defined in mpgen2.py. Line 115 would raise an uncaught NameError on the first usable row. The model uses the intended per-row logic and leaves both inside `Physics`.
- The output frame of lines 144-151 names 13 columns for 9-value rows. Once at least one row was kept, pandas raises when it builds the frame (line 144), before anything is saved; with no row kept it builds and saves an empty 13-column frame. The model returns the 9-value rows (`Estimate`).
- A catalogue column missing from the file (an uncaught KeyError in mpgen2.py) is not modelled. The three presence flags default to 0 when their column is absent (lines 28-30).
- Errors other than ValueError inside the physics (for example a complex temperature from a negative base raised to 0.25) are not modelled.
- The matcher's table cells are numbers or NaN, and its names are strings. A text cell in a compared column would make `<=` raise TypeError, which the `except KeyError` of exobioma.py:33 does not catch; an empty `Nome` cell would be NaN rather than a string. Neither is modelled.
- An empty spectral-type string cannot come from the reader, because empty fields are read as NaN. `TypeCell.Text` therefore holds a non-empty string.
- Upper-casing is modelled for ASCII letters only. No non-ASCII character upper-cases to one of O, B, A, F, G, K, M, so the lookup is unaffected.
- The number of samples (1000) is a precondition on `Draws` (`WellSized`), not a parameter.
