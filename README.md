# Flight wind-speed simulator: event generation and merge

This project is a Dafny model of the core of a small wind-speed simulator. The simulator covers a fixed duration on a grid of time steps. It produces four tables, each with one row per grid point:

- a base wind speed;
- a storm magnitude: zero outside storm windows, and a fresh uniform draw at every point inside one;
- a microburst magnitude, built the same way but only allowed while a storm is present;
- a merged trace: the sum of the three, plus a storm-present flag.

The configuration is validated first, by counting violated constraints.

## How the model is set up

- **Grid.** Grid point `i` has time `i * step`, taken as exact. `TimeGrid.GridSize` is the number of grid points `t = k * step` that pass the test `t <= duration + DELTA`, which is the number of rows every generator writes. (The storm and burst generators' outer loop runs at most that many times: one of its iterations writes either one idle point or a whole window.) `TimeGrid.StepsWithin` is the number of points after its first one that a window of length `T` covers, under the inner loop's test `t <= T + initialT + DELTA`. Two lemmas prove that each count matches its real-valued test.
- **Draws.** `rand() / RAND_MAX` becomes an oracle: one `EventSeries.Draw` record `(trigger, length, magnitude)` per grid point for storms and bursts, and one real per point for the wind. Each generator reads a field only where the source consumes a draw at that point. Any stream the source could consume fits some oracle, obtained by placing each draw where it is consumed. So the oracle loses no behaviour of the generators.
- **Window process.** `EventSeries.EventRun.WindowEnd(i)` gives the drawn last point `j + WindowSteps` of the window in force at point `i`, opened at some point `j <= i` (it may lie past the grid's last point, which only the generators' loop bound cuts off), or `i - 1` when no window covers `i`. Storms run with `Ungated`. Bursts run with `GatedBy(storm)`, where the gate is the storm value that the burst generator's reader holds at point `i`.
- **Generators.** `GenerateStorm` and `GenerateBurst` keep the source's nested loops, including the rewind `t -= step` (here `i := i - 1`). Both are proved to emit each grid point exactly once, in order, with value `EventRun.Value(k)`.
- **Reading a table back.** The burst reader and the three merge readers are cursors into in-memory tables. `TimeGrid.ReadBack` models `reader >> x >> v`:
  - a read within the table gives that row's value;
  - a read past the last row leaves `v` unchanged, so the last value repeats;
  - an empty table gives the initial `0`.

## Model

| member | source | states |
|---|---|---|
| `TimeGrid.NonZero` | Assignment2.cpp:188 | the tolerant zero test `!(x < DELTA && x > -DELTA)` holds exactly when x is at least DELTA from 0, counting exactly ±DELTA as present, and never holds of 0 |
| `TimeGrid.GridSize` | Assignment2.cpp:144 | the number of grid points written is 0 exactly when duration + DELTA < 0; otherwise the last point's time is within duration + DELTA and the next point's is past it |
| `TimeGrid.GridSizeCounts` | Assignment2.cpp:157 | point i is on the grid (i < GridSize) exactly when its time i*step passes the loop test t <= duration + DELTA |
| `TimeGrid.StepsWithinCounts` | Assignment2.cpp:161 | offset k from a window's first point passes k*step <= T + DELTA exactly when k <= StepsWithin(T, step) |
| `TimeGrid.Uniform` | Assignment2.cpp:162 | the scaled draw u*(hi-lo)+lo of a unit draw lies in [lo, hi], and is lo when the range is a single value |
| `TimeGrid.ReadBack` | Assignment2.cpp:186-232 | after reading rows 0..k the reader holds row k's value; past the end of the table it holds the last row's value (0 for an empty table); each step is `TimeGrid.Read`, one `reader >> x >> s` at lines 186/194/200/205/230-232 |
| `SimConfig.WindChecks` | Assignment2.cpp:75-90 | the four wind checks all pass exactly when 0 <= gust <= base speed, duration > 0 and step > 0 |
| `SimConfig.EventChecks` | Assignment2.cpp:91-110 | the five checks of one event configuration all pass exactly when probability >= 0 and 0 < min <= max for both amplitude and duration |
| `SimConfig.Checks` | Assignment2.cpp:75-130 | there are fourteen checks, and they all pass exactly when the wind, storm and burst configurations are all valid |
| `SimConfig.Violations` | Assignment2.cpp:75-130 | the failed-check count is at most the number of checks and is 0 exactly when every check passes |
| `SimConfig.ChecksPassIffValid` | Assignment2.cpp:75-130 | the fourteen checks all pass exactly when the wind and both event configurations are valid (0 <= gust <= base, duration > 0, step > 0, probability >= 0, 0 < min <= max for amplitudes and durations) |
| `SimConfig.WindErrors` | Assignment2.cpp:75-90 | the wind part of configure adds one error per failed wind check |
| `SimConfig.EventErrors` | Assignment2.cpp:91-110 | the event part of configure adds one error per failed check of an event configuration |
| `SimConfig.Configure` | Assignment2.cpp:54-133 | errorCount is the number of failed checks, at most 14, and is 0 exactly when the configuration is valid |
| `WindSampler.WindSample` | Assignment2.cpp:145 | base + (u-0.5)*2*gust lies in [base - gust, base + gust] for a unit draw and gust >= 0, and is the base speed when gust is 0 |
| `WindSampler.GenerateSpeed` | Assignment2.cpp:136-148 | one sample per grid point, in order, point k fed by draw k, each within gust of the mean speed |
| `EventSeries.Triggers` | Assignment2.cpp:158 | the trigger test (`p < probability` or `probability == 1`) never fires for a unit draw at probability <= 0, always fires at probability >= 1, and below 1 fires exactly on draws below the probability |
| `EventSeries.Open` | Assignment2.cpp:188 | a storm is never gated; a burst at point i is allowed exactly when the storm value read for i passes the zero test, and never when the storm table is empty |
| `EventSeries.EventRun.WindowEnd` | Assignment2.cpp:157-168 | the window in force at i ends no earlier than i - 1 (so "i - 1" means idle); a window is in force only where the gate is open; at an open point whose trigger draw fires, a window is always in force |
| `EventSeries.EventRun.Value` | Assignment2.cpp:162-167 | the row written for point i is non-zero only where a window is in force and the gate is open, and inside a window it lies in [minAmplitude, maxAmplitude] |
| `EventSeries.WindowLength` | Assignment2.cpp:159 | the drawn window length T lies in [minDuration, maxDuration] |
| `EventSeries.WindowSteps` | Assignment2.cpp:159-161 | a window covers a non-negative number of points after its first one, so a triggered window always writes its trigger point |
| `EventSeries.WindowStepsCounts` | Assignment2.cpp:159-161 | offset k is inside the window drawn from u exactly when k*step <= T + DELTA |
| `EventSeries.Magnitude` | Assignment2.cpp:162 | every magnitude drawn lies in [minAmplitude, maxAmplitude] and is positive |
| `EventSeries.ValueInRange` | Assignment2.cpp:193 | an emitted value is non-zero exactly at active points, and every non-zero value lies in [minAmplitude, maxAmplitude] |
| `EventSeries.ClosedGateSilences` | Assignment2.cpp:203-205 | where the gate is closed no window is in force and the value is 0 |
| `EventSeries.ZeroProbabilityNeverOpens` | Assignment2.cpp:158 | with probability 0 no window is ever in force, so every value is 0 |
| `EventSeries.CertainTriggerFollowsGate` | Assignment2.cpp:189 | with probability >= 1 a point is active exactly when the gate is open, so every point of an ungated storm carries a positive magnitude |
| `EventSeries.WindowCovers` | Assignment2.cpp:158-164 | a window opened at an idle point i stays in force, with its end unchanged and a fresh magnitude at each point, at every j with j - i <= WindowSteps while the gate stays open |
| `EventSeries.StormWindowExtent` | Assignment2.cpp:157-168 | a storm window opened at i covers j exactly when j - i <= WindowSteps, and ends before every later point |
| `EventSeries.WindowEndPrefix` | Assignment2.cpp:157-168 | the window in force at point i depends only on the draws and gate up to i |
| `EventSeries.NoRetriggerMidWindow` | Assignment2.cpp:161-164 | inside a window, the trigger and length draws of a point never change the window in force |
| `EventSeries.BurstNeedsStorm` | Assignment2.cpp:188-192 | a burst value is non-zero only where the storm value read for that point is beyond DELTA from zero |
| `EventSeries.ZeroStormSilencesBurst` | Assignment2.cpp:187-206 | a storm table with no value beyond DELTA makes every burst value 0, whatever the burst probability |
| `EventSeries.PinnedStormScenario` | Assignment2.cpp:157-168 | duration 10 and step 5 give 3 grid points, and a certain storm with amplitude pinned at 3 is 3 at each |
| `EventSeries.GenerateStorm` | Assignment2.cpp:149-170 | the storm table has one row per grid point, in order, with the window process's value; the rewind makes the outer loop resume on the first unwritten point |
| `EventSeries.GenerateBurst` | Assignment2.cpp:172-210 | the burst table has one row per grid point, in order, with the gated window process's value; the storm cursor advances once per row written, plus the first read |
| `EventSeries.GenerateStormAndBurst` | Assignment2.cpp:40-43 | storm and burst tables have equal length and aligned points; a burst is non-zero only where the storm is present, and an all-zero storm gives an all-zero burst |
| `SeriesMerger.MergedRow` | Assignment2.cpp:230-237 | where all three tables have a row for the point, speed is exactly wind + storm + burst and stormPresent holds iff storm <= -DELTA or storm >= DELTA |
| `SeriesMerger.GenerateSimulation` | Assignment2.cpp:212-243 | one row per grid point, in order, each the merged row of the values the three lockstep readers hold there, with no length check |

## Behaviour of the code worth noting

The model follows the code as written in each case below.

- **Merging tables of different lengths.** `generateSimulationData` (lines 229-237) reads the three tables in lockstep and never compares their lengths. A table that runs out keeps contributing its last value, because the failed extraction leaves the variable unchanged. `GenerateSimulation` states this through `MergedRow` and `ReadBack`.
- **The zero test at exactly DELTA.** The source's comment at line 188 calls `!(s < DELTA && s > -DELTA)` "equivalent to s != 0 but accounts for uncertainty of double values". The test also counts a value of exactly -DELTA or DELTA as present. The same test decides the storm-present flag at line 233 and gates the bursts at lines 188 and 192. `TimeGrid.NonZero` states it.
- **Probability of 1 or more.** The trigger test at lines 158 and 189 is `p < probability || probability == 1`. Its comment says an event is generated "based on the specified probability". Any probability of 1 or more always triggers: at exactly 1 through the second disjunct, above 1 because every draw lies below it. `EventSeries.Triggers` and `CertainTriggerFollowsGate` cover every probability >= 1.

## Left out

- File I/O is replaced by in-memory sequences of rows:
  - opening the files, and the exits when opening fails;
  - skipping the header with `seekg(2*W)`;
  - `setw` column formatting.
- Rounding of values to six significant digits when written to a file and read back is not modelled. Values pass between generators as exact reals.
- `srand(time(0))` and the distribution of `rand()` are not modelled. Draws are arbitrary values in [0, 1]. Each generator gets its own oracle, where the source shares one process-wide stream.
- Double arithmetic is modelled as exact real arithmetic. This covers the wind formula (line 145), the window length (lines 159 and 190), the magnitudes (lines 162 and 193) and the merged sum (line 237). `Magnitude`'s bound [minAmplitude, maxAmplitude] and `MergedRow`'s exact sum hold of these reals, not of doubles to the last unit of rounding.
- Floating-point accumulation of `t += step` is not modelled. Time is the exact `i * step`; the DELTA slack is kept in the two loop bounds.
- `main`'s orchestration, console messages and exit codes are left out. `GenerateStormAndBurst` composes only the two event generators, in the order `main` calls them.
- Reading the configuration values from text (lines 63-73) is left out. `Configure` starts from the parsed values.
- NaN and infinite configuration values are not modelled.
- GenerateStorm and GenerateBurst require a valid event configuration, which `main` guarantees by calling them only when `configure` reports no errors. With a negative window length the source's inner loop writes nothing and the rewind re-evaluates the same point, which the model does not follow.
- GenerateSpeed, GenerateStorm and GenerateBurst require at least one draw per grid point. This stands in for the unbounded random stream.
