# subterra, modelled in Dafny

subterra simulates the transport of heat in the ground around a field of borehole heat
exchangers. A Python core computes:

- the effective material parameters of the ground and groundwater mixture;
- the electrical energy the heat pump draws;
- the annual demand profile, tiled over the simulated years;
- the conversion of the user's parameters to SI units;
- the layout of the borehole field (square or hexagonal);
- the bookkeeping of the time loop around a finite-element solve: the stability gate,
  the step count, the demand lookup, probing the boreholes, the energy balance, progress
  reporting and snapshots.

The time loop comes in two variants, the current one and the legacy `run_calculation`.

A Laravel backend keeps the jobs of a web front end, each with the following parts:

- a status lifecycle: pending → meshing → meshed → simulating → completed, with failed
  reachable from either attempt;
- a work directory holding the parameters, the mesh, progress.json, job.log and the
  results;
- an HTTP controller that guards each action by the job's status;
- two queued workers that run the mesh generation and the simulation and write the
  status changes.

The project has one module per source file:

| module | file | models |
|---|---|---|
| `Tools` | tools.dfy | src/simulation/utils/tools.py |
| `PowerProfile` | powerprofile.dfy | src/simulation/powerprofile.py |
| `ConvertToSi`, `ConvertTree` | convert_to_si.dfy | src/simulation/utils/convert_to_si.py |
| `Mesh` | mesh.dfy | the layout generators of src/simulation/mesh.py |
| `Calculation` | calculation.dfy | src/simulation/calculation.py |
| `LegacyCalculation` | legacy_calculation.dfy | src/calculation.py |
| `SimulationJob` | simulation_job.dfy | backend/app/Models/SimulationJob.php |
| `SimulationController` | simulation_controller.dfy | backend/app/Http/Controllers/Api/SimulationController.php |
| `QueueJobs` | queue_jobs.dfy | backend/app/Jobs/RunMeshGeneration.php and backend/app/Jobs/RunSimulation.php |

Three shared modules support them: `Wrappers` (Option and Result), `Text` (decimal
formatting, joining, prefixes) and `Json` (a JSON tree).

The core computes over floats. The model computes over `real`, so it states the
algebra the code means, not its rounding.

Foreign code enters as function-typed parameters or fields:

- the finite-element backend: solve, integrals, boundary flux and point evaluation;
- `cos` and Simpson quadrature;
- float parsing and float formatting;
- `glob`, `json_decode` and `json_encode`;
- the process runner;
- the clock.

Errors are modelled explicitly:

- A Python exception, and a PHP exception thrown by a worker, is a `Result` failure.
- A NaN is `None`.

The time loops are classes with two separate buffers, T and the previous T. A ghost log
holds the emitted records. Each loop step is proved against a step function on values.

The jobs are a class updated in place by the controller and the workers. A ghost list
records every status write, and it is proved to follow the lifecycle.

## Model

| member | source | states |
|---|---|---|
| Tools.ConductivityModel1 | src/simulation/utils/tools.py:25-38 | Fails exactly when λ_g = 0 (the ValueError) or its denominator φ(1−r) + 3r is 0 (r = λ_f/λ_g); a successful φ = 0 gives λ_g |
| Tools.ConductivityModel2 | src/simulation/utils/tools.py:41-51 | Fails exactly when λ_g = 0 (the ValueError) or 2 + φ + r = 0; a successful φ = 0 gives λ_g |
| Tools.ConductivityModel3 | src/simulation/utils/tools.py:54-60 | Performs no check; for φ in [0,1] lies between λ_f and λ_g; φ = 0 gives λ_g and φ = 1 gives λ_f |
| Tools.HeatCapacityMix | src/simulation/utils/tools.py:77 | ρc_eff lies between ρc_g and ρc_f for φ in [0,1]; φ = 0 gives ρc_g and φ = 1 gives ρc_f |
| Tools.WeightedParameter | src/simulation/utils/tools.py:63-83 | A model id outside 1..3 fails with InvalidModel; model 3 always succeeds; a success carries the heat-capacity mix, and with φ = 0 is the ground pair; models 1 and 2 fail only with their own errors |
| Tools.PElValues | src/simulation/utils/tools.py:86-117 | Exactly 0 unless Q < 0 and T < T_H (a NaN temperature compares false); fails exactly in that branch when T_H or γ is 0 |
| Tools.PElValuesFloat64 | src/simulation/utils/tools.py:97-117 | With a numpy float64 temperature: non-finite exactly where the Python-float evaluation raises ZeroDivisionError, and equal to its value everywhere else |
| Tools.MixBetween | src/simulation/utils/tools.py:60 | For φ in [0,1], the mix φ·f + (1−φ)·g lies between f and g |
| Tools.ZeroPorosityGivesGround | src/simulation/utils/tools.py:34-38 | With φ = 0 and λ_g ≠ 0: model 3 gives λ_g; model 1 gives λ_g when λ_f ≠ 0 and divides by zero when λ_f = 0; model 2 gives λ_g when 2 + r ≠ 0 |
| Tools.Model1FullPorosity | src/simulation/utils/tools.py:34-38 | Model 1 with φ = 1 gives exactly λ_f when 1 + 2r ≠ 0 |
| Tools.PElNonPositive | src/simulation/utils/tools.py:99-101 | With Δt ≥ 0, γ > 0 and T_H > 0, P_el never fails and is never positive |
| PowerProfile.Arange | src/simulation/powerprofile.py:9 | `np.arange` has hi − lo entries, lo, lo+1, … |
| PowerProfile.ZipConsecutive | src/simulation/powerprofile.py:12 | A dict zipped from consecutive keys has exactly those keys, each holding its value |
| PowerProfile.AnnualProfileShape | src/simulation/powerprofile.py:7-17 | The annual profile has exactly the keys 1..365, and day d holds A − cos(2πd/365)·B |
| PowerProfile.AnnualValues | src/simulation/powerprofile.py:25 | The 365 values of the year, in day order |
| PowerProfile.TileAt | src/simulation/powerprofile.py:28 | `np.tile` over k years has k·365 entries, and entry i is entry i mod 365 of the year |
| PowerProfile.PositivePart | src/simulation/powerprofile.py:35 | Clipping from below keeps the length and gives values ≥ 0, keeping the non-negative ones |
| PowerProfile.NegativePart | src/simulation/powerprofile.py:36 | Clipping from above keeps the length and gives values ≤ 0, keeping the non-positive ones |
| PowerProfile.ClipPartsSum | src/simulation/powerprofile.py:35-36 | The positive and negative parts add up to the original, pointwise |
| PowerProfile.Ratio | src/simulation/powerprofile.py:42 | NaN exactly when Q_in = 0; otherwise a value ≥ 0 with ratio·\|Q_in\| = \|Q_out\| |
| PowerProfile.TiledDictValue | src/simulation/powerprofile.py:25-32 | Day d of the tiled dict holds annual day ((d−1) mod 365)+1 |
| PowerProfile.TiledDictKeys | src/simulation/powerprofile.py:26-32 | The tiled dict has exactly the keys 1..years·365 |
| PowerProfile.ProfileIsTiled | src/simulation/powerprofile.py:20-32 | The returned profile is the tiling of the annual values |
| PowerProfile.TiledProfileKeys | src/simulation/powerprofile.py:26-32 | The profile has exactly years·365 keys, namely 1..years·365 |
| PowerProfile.TiledProfileAt | src/simulation/powerprofile.py:25-32 | Day d of the profile equals A − cos(2π(((d−1) mod 365)+1)/365)·B |
| PowerProfile.TiledProfilePeriodic | src/simulation/powerprofile.py:25-28 | Entry d + 365 equals entry d |
| PowerProfile.RatioScaleInvariant | src/simulation/powerprofile.py:42-46 | The ratio, taken before the kWh scaling, equals the ratio of the returned (scaled) Q_out and Q_in, and is NaN exactly when the returned Q_in is 0 |
| ConvertToSi.RemoveSpaces | src/simulation/utils/convert_to_si.py:44 | `re.sub(r"\s+", "")` leaves no white space and keeps a text without any |
| ConvertToSi.Strip | src/simulation/utils/convert_to_si.py:39 | `strip()` leaves no white space at either end |
| ConvertToSi.StripKeepsContent | src/simulation/utils/convert_to_si.py:39 | Stripping loses nothing but white space |
| ConvertToSi.ReplaceRemovesChar | src/simulation/utils/convert_to_si.py:41-42 | Replacing a superscript by a text without it leaves none behind |
| ConvertToSi.MatchLength | src/simulation/utils/convert_to_si.py:51-56 | A case-insensitive word pattern matches at i exactly when its word does, and the match stays inside the text |
| ConvertToSi.Sub | src/simulation/utils/convert_to_si.py:51-56 | `re.sub` with a word pattern changes nothing where the word never matches, and keeps a text free of white space |
| ConvertToSi.SubFinalD | src/simulation/utils/convert_to_si.py:54 | A final d or D becomes "day"; any other text is unchanged |
| ConvertToSi.NormalizeHasNoSpace | src/simulation/utils/convert_to_si.py:36-57 | A normalised unit holds no white space |
| ConvertToSi.PlainNormalizesToItself | src/simulation/utils/convert_to_si.py:36-57 | A unit with none of the characters the steps look at normalises to itself |
| ConvertToSi.SiTableResult | src/simulation/utils/convert_to_si.py:68-123 | The table answers exactly for its own units, always with an SI unit |
| ConvertToSi.ConvertValueUnitResult | src/simulation/utils/convert_to_si.py:66-126 | A unit of the table comes out as an SI unit; any other unit comes back with the value unchanged and the original, un-normalised unit |
| ConvertToSi.SiUnitsFixed | src/simulation/utils/convert_to_si.py:66-126 | Every SI unit the table produces normalises to itself and converts to itself |
| ConvertToSi.ConvertValueUnitIdempotent | src/simulation/utils/convert_to_si.py:60-126 | Converting the result of a conversion changes nothing |
| ConvertToSi.CelsiusToKelvin | src/simulation/utils/convert_to_si.py:45-72 | "°C" and "degC" convert to value + 273.15 in "K" |
| ConvertToSi.HoursToSeconds | src/simulation/utils/convert_to_si.py:55-82 | "hours" converts to value·3600 in "s" |
| ConvertToSi.DayToSeconds | src/simulation/utils/convert_to_si.py:54-84 | A lone "d" converts to value·86400 in "s" |
| ConvertToSi.YearToSeconds | src/simulation/utils/convert_to_si.py:52-87 | "yr" converts to value·365·86400 in "s" |
| ConvertToSi.SuperscriptHeatCapacity | src/simulation/utils/convert_to_si.py:30-93 | " kJ/m³/K" converts to value·1000 in "J/m^3/K" |
| ConvertTree.ToFloat | src/simulation/utils/convert_to_si.py:143 | `float(val)` gives floats and ints their value and raises (None) for lists, dicts and None |
| ConvertTree.UnitString | src/simulation/utils/convert_to_si.py:143 | `str(unit)` of a string is the string itself |
| ConvertTree.ConvertQuantity | src/simulation/utils/convert_to_si.py:135-147 | A converted entry is exactly a {value, unit} pair |
| ConvertTree.Convert | src/simulation/utils/convert_to_si.py:129-156 | Lists keep their length, other dicts keep their keys in order, scalars are unchanged |
| ConvertTree.ConvertKeepsKind | src/simulation/utils/convert_to_si.py:129-156 | Conversion keeps each value's kind |
| ConvertTree.GetConverted | src/simulation/utils/convert_to_si.py:150 | A plain dict keeps its keys, and each holds the converted value |
| ConvertTree.FalsyQuantityStays | src/simulation/utils/convert_to_si.py:139-140 | An entry with a falsy value or unit is returned as it is, extra keys included |
| ConvertTree.QuantityOutcome | src/simulation/utils/convert_to_si.py:135-147 | A truthy entry whose value parses becomes exactly {value, unit} with `convert_value_unit`'s result, dropping extra keys; one that does not parse stays as it is |
| ConvertTree.PlainDictStaysPlain | src/simulation/utils/convert_to_si.py:149-150 | A dict that is not a {value, unit} entry does not become one |
| ConvertTree.ConvertIdempotent | src/simulation/utils/convert_to_si.py:129-156 | Converting a converted tree changes nothing |
| ConvertTree.ZeroCelsiusUnconverted | src/simulation/utils/convert_to_si.py:139-140 | A temperature of exactly 0 °C is falsy and stays in °C |
| ConvertTree.EntryConverted | src/simulation/utils/convert_to_si.py:135-144 | A dict with a non-zero float value and a non-empty unit first becomes {value, unit} of `convert_value_unit` |
| ConvertTree.CelsiusEntryConverted | src/simulation/utils/convert_to_si.py:135-144 | Every entry {"value": v, "unit": "°C", …} with v ≠ 0 becomes exactly {"value": v + 273.15, "unit": "K"}, whatever other keys it carries |
| Text.Pad2 | src/simulation/mesh.py:119 | `{index:02d}` has at least two digits and reads back as the index |
| Text.Pad2Injective | src/simulation/mesh.py:119 | Different indices give different padded numbers |
| Mesh.NameInjective | src/simulation/mesh.py:119-147 | Different indices give different `BHnn` keys, so keys never collide |
| Mesh.KeyedShape | src/simulation/mesh.py:122-147 | The dict has one key per list position, BH(k) holds position k, and there are no other keys |
| Mesh.GenerateSquare | src/simulation/mesh.py:133-149 | The list is the square layout in i-major order, and the dict is keyed in lockstep |
| Mesh.SquareLayoutShape | src/simulation/mesh.py:139-147 | The square layout has (2·rings+1)² points, and cell (i, j) is at (x0 + i·d, y0 + j·d) at its i-major index |
| Mesh.SquareHasCentre | src/simulation/mesh.py:139-147 | The centre is a borehole of the square layout |
| Mesh.HexGrid | src/simulation/mesh.py:111-120 | The candidate loops produce exactly the hexagon candidates, keyed in lockstep |
| Mesh.FilterWithinReach | src/simulation/mesh.py:122-128 | The filter loop keeps exactly the candidates within reach, in order, renumbered from 1 |
| Mesh.GenerateHexa | src/simulation/mesh.py:106-130 | The list is the filtered candidates, and the dict is keyed in lockstep |
| Mesh.HexCandidateCount | src/simulation/mesh.py:113-120 | There are 3·rings·(rings+1)+1 candidates |
| Mesh.HexCandidatesExactly | src/simulation/mesh.py:113-120 | A point is a candidate iff it is axial cell (q, r) with \|q\|, \|r\|, \|q+r\| ≤ rings |
| Mesh.HexPointCoords | src/simulation/mesh.py:117-118 | Cell (q, r) sits at x0 + d(q + r/2), y0 + d·(√3/2)·r |
| Mesh.AxialNormBound | src/simulation/mesh.py:124-125 | Inside a hexagon of radius n, q² + qr + r² ≤ n² |
| Mesh.AxialDistance | src/simulation/mesh.py:124 | The squared distance of cell (q, r) to the centre is d²(q² + qr + r²) |
| Mesh.HexPointWithin | src/simulation/mesh.py:124-125 | With d ≥ 0 every candidate passes the distance filter |
| Mesh.HexLayoutShape | src/simulation/mesh.py:106-130 | With d ≥ 0 nothing is dropped: 3·rings·(rings+1)+1 boreholes, the centre among them |
| Mesh.KeepWithinNegative | src/simulation/mesh.py:125 | A negative limit keeps no candidate (a negative spacing with at least one ring) |
| Mesh.GenerateMesh | src/simulation/mesh.py:45-69 | "hexa" and "square" generate their layout; any other mode fails with ValueError before meshing |
| Calculation.Round1 | src/simulation/calculation.py:44 | `round(x, 1)` is a multiple of 0.1 within 0.05 of x |
| Calculation.Percent | src/simulation/calculation.py:44 | 0 when total ≤ 0; within [0, 100] for a step in range; exactly 100 at the last step |
| Calculation.ShareBounds | src/simulation/calculation.py:44 | current/total·100 lies in [0, 100], and is 100 at the last step |
| Calculation.Round1Bounds | src/simulation/calculation.py:44 | Rounding keeps a percentage in [0, 100] and 100 exact |
| Calculation.ThrottleShape | src/simulation/calculation.py:398-411 | The throttle starts at −5; writes are increasing steps, the first at step 1; every later write is the last step or a rise of ≥ 5 over the previous write; the last step is written |
| Calculation.ThrottleEnds | src/simulation/calculation.py:405-411 | Over a whole run the first write is step 1 and the last is step n |
| Calculation.SnapshotsMembers | src/simulation/calculation.py:515 | A snapshot is taken exactly on days 365, 3650, 7300, 10950 and 14600 |
| Calculation.SnapshotsIncreasing | src/simulation/calculation.py:514-521 | Snapshots come in increasing order, each day at most once |
| Calculation.Prepare | src/simulation/calculation.py:281-356 | The set-up fails with the material error, or else is the gate on the material values |
| Calculation.Peclet | src/simulation/calculation.py:285-334 | Pe·a = max(vx, vy)·h_max: a plain max, not an absolute value |
| Calculation.Gate | src/simulation/calculation.py:306-352 | ZeroDivisionError exactly when ρc = 0, or convection is on and ρc_g = 0; on success, a = λ/ρc; with convection, b = φρ_fc_f/ρc_g and a finite Pe ≤ 2 iff λ ≠ 0; without convection, a finite Ne iff h_max ≠ 0; an instability error means convection and Pe > 2, unbounded exactly when λ = 0 (then max(vx, vy)·h_max > 0) |
| Calculation.ZeroPorosityBypass | src/simulation/calculation.py:288-304 | Porosity exactly 0 takes the ground λ and ρc, whatever the model id |
| Calculation.PecletGate | src/simulation/calculation.py:334-338 | With valid divisors and convection on, the gate fails iff Pe > 2 |
| Calculation.ZeroDiffusionGate | src/simulation/calculation.py:283-338 | With λ = 0 and convection on, the numpy division gives Pe = ±inf or NaN: the run aborts iff max(vx, vy)·h_max > 0, and otherwise goes on with a = 0 and no finite Pe |
| Calculation.NegativeFlowPasses | src/simulation/calculation.py:285-286 | A flow with both components ≤ 0 passes the gate, however fast |
| Calculation.StepCount | src/simulation/calculation.py:383 | Fails exactly when Δt = 0 (ZeroDivisionError) |
| Calculation.StepCountCovers | src/simulation/calculation.py:383 | For Δt > 0, N whole steps fit within the simulated time, and N + 1 do not |
| Calculation.ProbeLayout | src/simulation/calculation.py:454-463 | Four probe points per borehole |
| Calculation.ProbeLayoutAtOne | src/simulation/calculation.py:454-463 | Borehole i is probed at (x−r, y), (x+r, y), (x, y−r), (x, y+r), in slots 4i..4i+3 |
| Calculation.BuildProbePoints | src/simulation/calculation.py:454-463 | The loop builds exactly the probe layout |
| Calculation.EvalAtPointsBatch | src/simulation/calculation.py:167-192 | As written: one sample per point, NaN for a miss or a GJK failure, with every point tested against the first point's candidate cells (see Findings) |
| Calculation.EvalAtPoints | src/simulation/calculation.py:167-192 | As intended: one sample per point, the value of the first cell holding it among its own candidates, NaN for a miss or a GJK failure |
| Calculation.BatchAgreesOnSharedCandidates | src/simulation/calculation.py:179-182 | The batch as written and the intended evaluation agree at the first point and wherever a point's candidates are the first point's |
| Calculation.BatchMissesSecondPoint | src/simulation/calculation.py:179-182 | A second probe in a cell outside the first probe's candidates reads NaN in the batch as written but its value as intended |
| Calculation.NanMean | src/simulation/calculation.py:467 | NaN exactly when every sample is NaN |
| Calculation.PresentCountZero | src/simulation/calculation.py:467 | No sample counts iff all are NaN |
| Calculation.PresentSumBounds | src/simulation/calculation.py:467 | The sum of the present samples lies between count·lo and count·hi |
| Calculation.NanMeanBetween | src/simulation/calculation.py:467 | The NaN-mean lies within the bounds of the samples |
| Calculation.NanMeanOfFour | src/simulation/calculation.py:467 | With all four probes inside the mesh, the mean is the plain average |
| Calculation.BoreholeTemperatures | src/simulation/calculation.py:466-468 | One temperature per borehole |
| Calculation.WElRow | src/simulation/calculation.py:469-475 | A successful P_el row has one entry per borehole |
| Calculation.WElRowShape | src/simulation/calculation.py:466-475 | The row succeeds iff P_el succeeds for every borehole, and then holds P_el of each |
| Calculation.FillRows | src/simulation/calculation.py:466-475 | The loop fills the temperatures and the P_el row exactly as specified, or stops at the first failure |
| Calculation.InjectionNeedsNoPower | src/simulation/calculation.py:469-475 | A positive demand gives a P_el row of zeros |
| Calculation.MakeRecord | src/simulation/calculation.py:486-506 | Energies are in kWh; error = ΔE + E_flux + E_probe; E_inout = ΔE + E_probe; Q_probe and E_storage are NaN |
| Calculation.Demand | src/simulation/calculation.py:413-416 | The demand of a step is present in the profile and not 0.0 |
| Calculation.Source | src/simulation/calculation.py:418 | Q·ρc = demand·Δt |
| Calculation.StepTemperatures | src/simulation/calculation.py:464-468 | One temperature per borehole in the field after step t |
| Calculation.FieldTemperatures | src/simulation/calculation.py:464-468 | One temperature per borehole of a field |
| Calculation.ProbeField | src/simulation/calculation.py:449-475 | Probing a field (each probe located among its own candidates) gives the borehole temperatures and their P_el row, or the P_el failure |
| Calculation.StepRecordOf | src/simulation/calculation.py:486-506 | The record of step t: its day, its rows, the balance identities, E_probe·3.6e6 = Δt·demand·n_BHE, Q_probe and E_storage NaN |
| Calculation.StepRecordFromFields | src/simulation/calculation.py:478-506 | E_ground is the drop in ρc-weighted heat from T_n to T, and E_flux is −Δt times the boundary flux of T |
| Calculation.StepSpec | src/simulation/calculation.py:413-506 | Step t succeeds iff P_el succeeds for every borehole, failing with PowerFailed(t) otherwise; on success its record is StepRecordOf, with a finite P_el at every borehole |
| Calculation.InjectionStep | src/simulation/calculation.py:413-506 | A step with positive demand never fails and draws no power |
| Calculation.RunNeedsProfileCoverage | src/simulation/calculation.py:413-416 | A run that reaches step n on the tiled profile needs n ≤ years·365 |
| Calculation.LoggedAt | src/simulation/calculation.py:495-506 | The k-th logged record is the record of step k+1 |
| Calculation.TimeLoop.constructor | src/simulation/calculation.py:262-272 | T and T_n are fresh, separate buffers; T_n holds T_0 everywhere; nothing has been logged |
| Calculation.TimeLoop.CopyToPrevious | src/simulation/calculation.py:509 | T_n becomes an element-wise copy of T, and T is unchanged |
| Calculation.TimeLoop.Step | src/simulation/calculation.py:418-506 | T becomes the field after step t, and the outcome is the step's specification with its energies |
| Calculation.TimeLoop.ReportProgress | src/simulation/calculation.py:405-411 | The progress writes and `last_progress_pct` follow the throttle after step t |
| Calculation.TimeLoop.Advance | src/simulation/calculation.py:413-523 | A missing or zero demand stops the run with its step; otherwise the step is logged and accounted |
| Calculation.TimeLoop.Commit | src/simulation/calculation.py:495-521 | The record is logged, T_n := T, the accumulators grow by the step's energies, and a snapshot is taken on its days |
| Calculation.TimeLoop.Reset | src/simulation/calculation.py:395-398 | Both accumulators are 0, nothing is written or logged, and the throttle starts at −5 |
| Calculation.TimeLoop.Tick | src/simulation/calculation.py:400-523 | One pass of the loop body: the throttle advances past step t, and the step is either accounted or stops the run with step t and its cause |
| Calculation.TimeLoop.Steps | src/simulation/calculation.py:400-524 | The loop alone: all N steps accounted with progress at the throttled steps, or the first failing step with the steps before it accounted |
| Calculation.TimeLoop.Run | src/simulation/calculation.py:394-527 | On success, every demand up to N is truthy, steps 1..N are logged as specified, T_n is the field after N, the sums match the records, and progress is written at the throttled steps and once more at the end; on failure, the first step whose demand is missing or zero, or whose P_el fails, with the steps before it logged |
| Calculation.AppendSums | src/simulation/calculation.py:511-512 | The accumulators are the sums of the logged energies |
| LegacyCalculation.SystemOperatorShape | src/calculation.py:145-201 | The operator is M + Δt·a·K, plus Δt·b·C with convection, with the boundary condition applied once |
| LegacyCalculation.LegacyGate | src/calculation.py:136-178 | ZeroDivisionError exactly when ρc = 0, or convection is on and ρc_g = 0 or λ = 0, or convection is off and h_max = 0; every other outcome is the current driver's gate |
| LegacyCalculation.Assemble | src/calculation.py:114-199 | A set-up that succeeds is the current driver's, with the system operator; a failure other than a division by zero is the current driver's too; where the current driver divides by zero, so does this one |
| LegacyCalculation.LegacyZeroDiffusion | src/calculation.py:161 | With λ = 0 and convection on this driver raises ZeroDivisionError, while the current one aborts on an unbounded Pe or carries on without a finite Pe |
| LegacyCalculation.LegacyZeroPorosity | src/calculation.py:118-134 | Porosity 0 takes the ground values, and the run never fails in the mixing laws |
| LegacyCalculation.LegacyPecletAborts | src/calculation.py:161-194 | With convection and Pe > 2 the run stops before the loop, with an instability error |
| LegacyCalculation.AddSourcesShape | src/calculation.py:231-233 | Applying the sources adds one source of magnitude Q per location, in order, leaving the field and the boundary condition alone |
| LegacyCalculation.StepRhsShape | src/calculation.py:230-234 | Each step's RHS is M·T_1 plus one source Q per location, with the boundary condition applied once |
| LegacyCalculation.SourcesCarryProbeEnergy | src/calculation.py:227-270 | The ρc-weighted source total equals Δt·demand·n_BHE, the step's probe energy |
| LegacyCalculation.BuildRhs | src/calculation.py:230-234 | The loop builds exactly the specified RHS |
| LegacyCalculation.BoreholeTemperature | src/calculation.py:251-256 | The temperature is defined iff all four probes are inside, and is then their plain average |
| LegacyCalculation.BoreholeRows | src/calculation.py:247-265 | Filled rows have one entry per borehole |
| LegacyCalculation.BoreholeRowsShape | src/calculation.py:247-265 | The rows are filled iff every borehole is probed inside (P_el never raises on a float64 T_EWS), and then hold each borehole's average and its float64 P_el |
| LegacyCalculation.NonFiniteRowEntries | src/calculation.py:259-265 | A P_el entry is non-finite exactly when its borehole extracts heat below T_H and T_H or γ is 0, and is otherwise the finite P_el |
| LegacyCalculation.BoreholeRowsPrefixFails | src/calculation.py:247-265 | A probe outside among the first boreholes stops the whole loop |
| LegacyCalculation.NonExtractionRows | src/calculation.py:259-265 | A demand that is not an extraction gives a P_el row of zeros |
| LegacyCalculation.FillRows | src/calculation.py:247-265 | The loop over the boreholes computes exactly the specified rows |
| LegacyCalculation.RecordOutcome | src/calculation.py:268-286 | Succeeds iff the rows are filled; a failure is OutsideMesh of the step; a success holds the rows and the balance identities |
| LegacyCalculation.StepOutcome | src/calculation.py:226-286 | Step t succeeds iff its rows are filled, and otherwise stops with OutsideMesh(t) |
| LegacyCalculation.StepBalance | src/calculation.py:268-286 | A successful step's record has its day, its rows and the balance built from T_1, T and the flux |
| LegacyCalculation.ZeroDemandStep | src/calculation.py:226-265 | A demand of exactly 0.0 passes the lookup, draws no power, and fails only for a probe outside |
| LegacyCalculation.LegacyProfileCoverage | src/calculation.py:226-227 | On the tiled profile, step t ≥ 1 finds an entry iff t ≤ years·365 |
| LegacyCalculation.LegacyLoggedAt | src/calculation.py:275-286 | The k-th logged record is the record of step k+1 |
| LegacyCalculation.ProbeAndRecord | src/calculation.py:240-286 | After the solve, the flux, the rows and the record give the specified outcome |
| LegacyCalculation.LegacyLoop.constructor | src/calculation.py:98-105 | T is zero, T_1 holds T_0, they are separate buffers, and both sums are 0 |
| LegacyCalculation.LegacyLoop.CopyToPrevious | src/calculation.py:289 | T_1 becomes an element-wise copy of T, and T is unchanged |
| LegacyCalculation.LegacyLoop.Step | src/calculation.py:226-286 | T becomes the field after step t, and the outcome is the step's specification |
| LegacyCalculation.LegacyLoop.SolveInto | src/calculation.py:227-237 | The solve stores the next field in T |
| LegacyCalculation.LegacyLoop.Advance | src/calculation.py:226-294 | A missing entry stops the run with a TypeError, a probe outside the mesh with OutsideMesh; otherwise the step is logged and accounted |
| LegacyCalculation.LegacyLoop.Commit | src/calculation.py:275-302 | The record is logged, T_1 := T, the sums grow, and a snapshot is taken on its days |
| LegacyCalculation.LegacyLoop.Run | src/calculation.py:205-312 | On success, steps 1..N are logged in order; on failure, the first step whose lookup or probing raises, with the steps before it logged |
| SimulationJob.ParseStatus | backend/app/Models/SimulationJob.php:15-20 | A name read back gives the status stored under it |
| SimulationJob.SixStatuses | backend/app/Models/SimulationJob.php:15-20 | Exactly six statuses, each stored under its own name and read back as itself |
| SimulationJob.FollowsAppend | backend/app/Models/SimulationJob.php:15-20 | Two runs of lifecycle steps join into one |
| SimulationJob.Under | backend/app/Models/SimulationJob.php:54-100 | `dir/name` starts with dir + "/" and continues with the name |
| SimulationJob.UnderInjective | backend/app/Models/SimulationJob.php:54-100 | Different names under one directory are different paths |
| SimulationJob.PathsLayout | backend/app/Models/SimulationJob.php:54-100 | Every helper path lies in the work dir, plots lies in results, and the six paths are distinct |
| SimulationJob.Job.Create | backend/app/Http/Controllers/Api/SimulationController.php:25-28 | A new job is pending with its parameters and no timestamps, message or work dir |
| SimulationJob.Job.WorkDir | backend/app/Models/SimulationJob.php:46-49 | work_dir falls back to storage/app/jobs/{id} when the column is null |
| SimulationJob.HasMeshCases | backend/app/Models/SimulationJob.php:86-92 | Either mesh format with locations.json is enough; neither the locations alone nor a mesh alone is |
| SimulationJob.MeshPlotFile | backend/app/Models/SimulationJob.php:197-201 | "mesh_plot.png" exactly when temp/mesh_plot.png exists |
| SimulationJob.Coalesce | backend/app/Models/SimulationJob.php:161-167 | `??`: a missing key and a null value give the default, and any other value is kept |
| SimulationJob.ReadProgress | backend/app/Models/SimulationJob.php:149-168 | Null unless progress.json exists and decodes to an array |
| SimulationJob.ProgressDefaults | backend/app/Models/SimulationJob.php:161-167 | A file without the keys reads as phase null, steps 0, percent 0, message '' |
| SimulationJob.ProgressKeepsValues | backend/app/Models/SimulationJob.php:161-167 | A present non-null field is passed through |
| SimulationJob.BasenameIsLastSegment | backend/app/Models/SimulationJob.php:113 | `basename` is the suffix after the last '/', with no '/' in it |
| SimulationJob.Basenames | backend/app/Models/SimulationJob.php:110-114 | The base name of each path, in order |
| SimulationJob.Relatives | backend/app/Models/SimulationJob.php:115-119 | Each path with "dir/" removed, in order |
| SimulationJob.Unique | backend/app/Models/SimulationJob.php:121 | `array_unique` has no duplicates and the same members |
| SimulationJob.UniqueFirstOccurrenceOrder | backend/app/Models/SimulationJob.php:121 | `array_unique` keeps the values in the order of their first occurrences in the input |
| SimulationJob.UniqueOfDistinct | backend/app/Models/SimulationJob.php:121 | A list without duplicates is left as it is |
| SimulationJob.LessEqTotal | backend/app/Models/SimulationJob.php:138 | `strcmp` order is total |
| SimulationJob.LessEqTransitive | backend/app/Models/SimulationJob.php:138 | `strcmp` order is transitive |
| SimulationJob.Insert | backend/app/Models/SimulationJob.php:138 | Insertion keeps a list sorted and adds exactly the one name |
| SimulationJob.Sort | backend/app/Models/SimulationJob.php:138 | `sort` gives a sorted permutation |
| SimulationJob.ResultFiles | backend/app/Models/SimulationJob.php:105-122 | Empty without a results dir; otherwise the deep matches' base names followed by the one-level matches' relative paths, deduplicated keeping first occurrences: a name is listed iff it is one of those, once, in the order it first appears |
| SimulationJob.PlotFiles | backend/app/Models/SimulationJob.php:127-141 | Empty without a plots dir; otherwise sorted, and a permutation of the PNG base names |
| SimulationJob.SkipLine | backend/app/Models/SimulationJob.php:187 | `fgets` moves just past the next newline, or to the end |
| SimulationJob.JobLog | backend/app/Models/SimulationJob.php:173-192 | '' for an absent log; the whole log when it fits; otherwise the marker and the tail from just after the first newline in the last maxBytes bytes, failing when maxBytes < 1 |
| SimulationController.GuardsFollowLifecycle | backend/app/Http/Controllers/Api/SimulationController.php:106-227 | `mesh` and `run` accept exactly the statuses from which meshing may start; `simulate` only meshed; `destroy` refuses exactly meshing and simulating |
| SimulationController.Limited | backend/app/Http/Controllers/Api/SimulationController.php:55 | A limit in range keeps that many leading rows; a negative or large limit keeps all |
| SimulationController.RemoveTree | backend/app/Http/Controllers/Api/SimulationController.php:231 | Everything inside the directory is gone, and everything else is kept unchanged |
| SimulationController.NestedInside | backend/app/Models/SimulationJob.php:54-100 | A path two levels below the work dir is inside it |
| SimulationController.RemovedWorkDirIsEmpty | backend/app/Http/Controllers/Api/SimulationController.php:230-232 | After removal the job has no mesh, no progress, no log and no results dir |
| SimulationController.Controller.Store | backend/app/Http/Controllers/Api/SimulationController.php:21-46 | A fresh pending job under its id, with work_dir set; parameter.json written; temp and results created; 201 |
| SimulationController.Controller.Index | backend/app/Http/Controllers/Api/SimulationController.php:52-78 | Newest first, at most the limit (20 by default); each summary carries the row's id, status, creation time and the four mesh and simulation timestamps; progress is present exactly for meshing or simulating jobs and is `progress()` |
| SimulationController.Controller.Mesh | backend/app/Http/Controllers/Api/SimulationController.php:106-121 | From pending or failed, mesh generation is queued and the answer says meshing; otherwise 422 and nothing queued; the stored status is unchanged |
| SimulationController.Controller.Simulate | backend/app/Http/Controllers/Api/SimulationController.php:127-149 | Queued only when meshed and the mesh is present; 422 with either message otherwise; the status is unchanged |
| SimulationController.Controller.Run | backend/app/Http/Controllers/Api/SimulationController.php:155-173 | Same guard as `mesh`; queues the chained mesh generation and simulation; the status is unchanged |
| SimulationController.Controller.DownloadResult | backend/app/Http/Controllers/Api/SimulationController.php:179-203 | 422 unless completed; the first results/<subdir>/name match, else results/name if it exists, else 404 |
| SimulationController.Controller.Destroy | backend/app/Http/Controllers/Api/SimulationController.php:221-237 | 422 while running; otherwise the work dir is removed if it is a dir and the job is deleted |
| QueueJobs.SimulationRunsUnderMpi | backend/app/Jobs/RunSimulation.php:114-132 | In Docker the command runs `mpirun -np <cores>` before `python3 -m src.sim_runner`; locally there is no mpirun; the timeout is 7200 |
| QueueJobs.AppendLogsExtends | backend/app/Jobs/RunMeshGeneration.php:129-134 | Appending only extends job.log by exactly the given lines, and changes no other file |
| QueueJobs.Thrown | backend/app/Jobs/RunMeshGeneration.php:65-69 | An exception is thrown iff the process threw or exited non-zero |
| QueueJobs.ChainFollows | backend/app/Jobs/RunSimulation.php:43-79 | A meshing success followed by a simulation attempt writes statuses that follow the lifecycle |
| QueueJobs.Worker.RunLogged | backend/app/Jobs/RunMeshGeneration.php:43-49 | The process result is the runner's, and the disk gains its files and its logged output |
| QueueJobs.Worker.Write | backend/app/Jobs/RunMeshGeneration.php:35-55 | The status and only its own timestamp are set, and the write is recorded |
| QueueJobs.Worker.MarkFailed | backend/app/Jobs/RunMeshGeneration.php:70-74 | Status failed and error_message the first ≤ 5000 characters; timestamps unchanged |
| QueueJobs.Worker.GenerateMeshPlot | backend/app/Jobs/RunMeshGeneration.php:136-178 | The mesh plot only adds files and log lines; the job is not touched |
| QueueJobs.MeshPlotShown | backend/app/Jobs/RunMeshGeneration.php:136-178 | After the mesh-plot attempt `meshPlotFile()` names the plot exactly when it was there before or the plot process wrote temp/mesh_plot.png; the job.log appends around it never create or remove it |
| QueueJobs.Worker.HandleMeshGeneration | backend/app/Jobs/RunMeshGeneration.php:30-78 | Meshing first; success iff the process succeeded, then meshed, then the mesh plot; failure sets failed with the truncated message and rethrows |
| QueueJobs.Worker.HandleSimulation | backend/app/Jobs/RunSimulation.php:31-80 | No mesh: failed without ever simulating; otherwise simulating first, then completed and plot generation queued, or failed and rethrown |
| QueueJobs.Worker.HandleChain | backend/app/Jobs/RunMeshGeneration.php:30-78 | The simulation runs only after a successful meshing; started from pending or failed, every status written follows the lifecycle |

## Left out

- The finite-element backend is not modelled: DOLFINx/FEniCS assembly, LU solve, integrals, flux and point evaluation, the bounding-box tree, the Gaussian source kernel and the legacy PointSource internals. They enter as uninterpreted functions.
- Floating point, float32 row storage and float rounding are not modelled. This includes the hex corner that rounding can drop at the distance boundary, and the `{t:.1f}` snapshot names. Arithmetic is over `real`.
- `cos` and Simpson quadrature are function parameters.
- gmsh meshing, `save_locations`, `load_locations`, the profile CSV write, the file replace in `_write_progress`, and `run_conversion` with its buggy `__main__` block are not modelled: they are file I/O or geometry-kernel calls.
- The mesh-file check, the mesh load and the initial progress write before the loop are not modelled. Neither are `alive_bar`, the CPU/RAM text, the final "Calculation finished" message or the HDF5 writer's flush and close. The writer is a ghost log of records.
- The legacy driver's SI-conversion subprocess and its parameter-file reads are not modelled.
- A non-finite result of a numpy division (+inf, −inf or NaN) is one value, None, without its sign, and the RuntimeWarning numpy prints for it is not modelled. Where the sign decides the outcome (the Péclet gate), the model decides it from the numerator.
- Calculation.StepCount: the number of steps is taken as an integer over `real`; NaN or infinite inputs are not modelled.
- ConvertToSi: `normalize_unit` of a non-string is not modelled; the tree only ever passes strings. Case-insensitive matching is Python's case folding restricted to the letters of the patterns (their upper case, and ſ for s), not full Unicode folding.
- The `show` and `validateParams` actions and the request validation are not modelled. The validator's bounds appear as preconditions where the model needs them.
- The `docker rm -f` before a run, the Laravel `Log` calls, and the queue's retry machinery are not modelled (`Tries` = 1 is kept as a constant). The plot-generation worker is modelled only as a queue entry.
- Processes are a runner function from the invocation to a result and the files it wrote. The partial output of a process that throws is not modelled.
- Timestamps are clock values passed in.
- SimulationController.Controller.Store requires a fresh id, standing in for the UUID the database generates.
- SimulationController.Controller.Index takes the rows already ordered by `created_at`, since the database ordering is not modelled.
- Controller and worker each hold their own view of the disk. The shared filesystem and the database are not modelled as one store.
- `ensureDirectoryExists` creates only the named directories, not missing parents.
- `array_unique` key preservation and the JSON encoding of the resulting list are not modelled.
- `basename` of a path with a trailing slash is not modelled, since glob results have none.
- Duplicated JSON object keys: the model's key lookup takes the first pair, while PHP `json_decode` and Python `json.load` keep the last. The model relies on decoded documents never holding a duplicated key.
- A progress.json or job.log that is a directory is not modelled.
- SimulationController.Controller.DownloadResult: `file_exists` also holds for a directory, so a directory `results/<filename>` answers as a direct download in the model, where the framework's download of a directory fails.
- SimulationJob.JobLog: a "character" here is a byte of the log, and multi-byte characters are not modelled. The same holds for the 5000-character truncation of error_message.

## Findings

| source | as written | input that shows it | evidently intended | confidence | as-written member | corrected member |
|---|---|---|---|---|---|---|
| src/simulation/calculation.py:179-182 | `compute_colliding_cells(mesh, cell_candidates, pts3d[i:i+1])` pairs the single point `pts3d[i]` with row 0 of the candidates computed for all points, so `links(0)` tests point i only against the first point's candidate cells | two probes at (0, 0) and (10, 0) in different cells: the second is not in any candidate cell of the first and reads NaN | each point tested against its own candidate row, so every probe inside the mesh gets its cell's value | not executed; rests on DOLFINx pairing row k of the candidates with point k of the points passed | Calculation.BatchMissesSecondPoint | Calculation.EvalAtPoints |
