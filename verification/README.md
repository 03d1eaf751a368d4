# Slope energy and cornering stability, modelled in Dafny

The repository holds two physics simulators. Each is a web page built around
a small deterministic core. This project models both cores over exact real
arithmetic and proves the properties the pages rely on.

- **Electric-vehicle slope model** (`main.py`).
  - A road grade in percent is read as tan θ. sin θ and cos θ follow without
    computing the angle.
  - A road segment becomes a grade force and a rolling-resistance force,
    power at the wheels and at the battery, and the energy drawn. On
    descents a simplified regenerative credit is subtracted and the energy
    is clamped at zero.
  - A sweep tabulates one row per (speed, grade) pair. Speeds are the outer
    loop and grades the inner one. Each row adds the consumption in
    kWh/100 km.
  - Modules `SlopeEnergy` (`slope_energy.dfy`) and `SlopeSweep`
    (`slope_sweep.dfy`). `SlopeSweep.ComputeSweep` keeps the nested loops
    and is proved equal to the recursive specification `SlopeSweep.Sweep`.
- **Scooter cornering model** (`streamlit_app.py`).
  - Uniform circular motion gives the centripetal acceleration
    a_c = v²/r, the force F_c = m v²/r, the minimum friction coefficient
    μ_min = v²/(r g), the lean angle θ = atan(μ_min) in degrees, and the
    criterion "safe iff μ ≥ μ_min".
  - There are two tables. The radius sweep holds μ_min, θ and a "Sí"/"No"
    label per radius. The μ × r safety map is a zero matrix overwritten row
    by row with 1 for safe and 0 for risky cells.
  - Modules `Cornering` (`cornering.dfy`) and `CorneringSweep`
    (`cornering_sweep.dfy`). `CorneringSweep.SafetyMatrix` fills an
    `array2<int>` in nested loops; `CorneringSweep.SafetyMap` computes the
    μ_min of every radius first and then calls it.

The host's `math.sqrt` and `math.degrees(math.atan(·))` are parameters, not
built-ins:

- `sqrt: real -> real` must be a positive square root at the one point
  where it is used (`SlopeEnergy.ValidSqrtAt`).
- `atanDeg: real -> real` is arbitrary. The lemma that needs it to be
  monotone says so in its `requires`.

The source never checks that η, the segment length or a radius is non-zero.
Each function that divides by one of them therefore requires it to be
non-zero. Every sign assumption (mass, efficiency, length or radius
positive) appears only on the lemma that needs it.

## Model

| member | source | states |
|---|---|---|
| SlopeEnergy.SlopeTrig | main.py:11-19 | cos θ > 0; sin θ / cos θ equals grade/100; sin θ is positive, negative or zero exactly when the grade is |
| SlopeEnergy.PythagoreanIdentity | main.py:16-18 | the derived pair satisfies sin² θ + cos² θ = 1 |
| SlopeEnergy.FlatTrig | main.py:16-18 | a 0 % grade gives sin θ = 0 and cos θ = 1 |
| SlopeEnergy.Max | main.py:59 | the clamp is an upper bound of both arguments and equal to one of them |
| SlopeEnergy.EvSegment | main.py:21-69 | grade force = m·g·sin θ and rolling force = Crr·m·g·cos θ for the derived sin θ, cos θ; downhill the regen credit is η_regen·m·g·(−L·sin θ) in kWh; total force is their sum; grade force has the sign of the grade for positive mass and is 0 on a flat road; rolling force is ≥ 0 for Crr, m ≥ 0; mech power × 1000 = F_tot · v and battery power × η = mech power; uphill or flat there is no regen and the energy is F_tot·L/η in kWh; downhill the energy is max(0, traction − regen) ≥ 0, and the regen credit is ≥ 0 for non-negative efficiency, mass and length |
| SlopeEnergy.SixPercentClimb | main.py:21-69 | 1700 kg at 70 km/h up 2 km of a 6 % grade (η = 0.90, Crr = 0.010): grade force in (998, 1000) N and segment energy in (0.719, 0.72) kWh |
| SlopeEnergy.FlatRoad | main.py:38-53 | on a 0 % grade: no grade force, total force = rolling force = Crr·m·g, no regen credit |
| SlopeEnergy.EnergyFloor | main.py:47-59 | with η > 0 and non-negative length, mass and Crr, the segment energy is never negative on any grade |
| SlopeEnergy.RegenOnlyOnDescent | main.py:51-59 | the credit is 0 unless the grade is negative; downhill the energy is 0 exactly when the credit covers the traction energy; the credit is > 0 on a real descent with positive efficiency, mass and length |
| SlopeEnergy.EnergyIsPowerTimesTime | main.py:43-49 | away from descents the segment energy equals battery power × travel time L/v |
| SlopeSweep.SweepRowAt | main.py:76-85 | a row carries the pair and the segment's total force, battery power and energy; consumption × L = energy × 100 |
| SlopeSweep.SpeedBlockAt | main.py:75-85 | the inner loop yields one row per grade, row j being that of grade j |
| SlopeSweep.SweepAt | main.py:71-86 | the table has \|speeds\|·\|grades\| rows; row k is the row of speed k / \|grades\| and grade k % \|grades\| |
| SlopeSweep.EmptySweep | main.py:73-86 | an empty speed or grade list gives an empty table |
| SlopeSweep.SweepNonNegative | main.py:71-86 | for a physical vehicle no row reports negative energy or consumption |
| SlopeSweep.ComputeSweep | main.py:71-86 | the nested loops return exactly the table `Sweep`, with its row count and row-major indexing |
| Cornering.KmhToMs | streamlit_app.py:13-14 | v_ms × 3.6 = v_kmh, and the sign is kept |
| Cornering.Ac | streamlit_app.py:17-19 | a_c × r = v², and a_c ≥ 0 for r > 0 |
| Cornering.Fc | streamlit_app.py:21-23 | F_c = m · a_c, and F_c ≥ 0 for m ≥ 0, r > 0 |
| Cornering.MuMin | streamlit_app.py:25-27 | μ_min · g = a_c, and μ_min ≥ 0 for r > 0 |
| Cornering.ThetaDeg | streamlit_app.py:29-31 | the lean angle is atan-in-degrees of μ_min |
| Cornering.Safe | streamlit_app.py:33-34 | safe exactly when μ_available ≥ μ_required, and unsafe exactly when μ_required > μ_available |
| Cornering.NormalForce | streamlit_app.py:106 | N / g = m, and N > 0 for m > 0 |
| Cornering.MaxFriction | streamlit_app.py:107 | F_f,max / N = μ for every non-zero N and F_f,max = 0 when N = 0; for N > 0 the bound is non-negative exactly when μ is |
| Cornering.FrictionCriterion | streamlit_app.py:106-122 | for m > 0, F_c ≤ μ·N holds exactly when safe(μ, μ_min) |
| Cornering.MuMinPositive | streamlit_app.py:25-27 | a moving scooter needs μ_min > 0 on every turn of positive radius |
| Cornering.MuMinDecreasingInRadius | streamlit_app.py:25-27 | for v ≠ 0, μ_min is strictly decreasing in r > 0 |
| Cornering.MuMinNonIncreasingInRadius | streamlit_app.py:25-27 | for any v, μ_min never increases with r > 0 |
| Cornering.MuMinIncreasingInSpeed | streamlit_app.py:25-27 | for fixed r > 0, μ_min is strictly increasing in v ≥ 0 |
| Cornering.ThetaDecreasingInRadius | streamlit_app.py:29-31 | with a strictly increasing atan, the lean angle decreases strictly with r |
| Cornering.EvaluateCase | streamlit_app.py:101-108 | the single-turn report: a_c, μ_min, θ, F_c, N = m·g and F_f,max = μ_available·N are those of the given speed, radius, mass and coefficient; F_c = m·a_c, μ_min·g = a_c, safe iff μ ≥ μ_min, and for m > 0 safe iff F_c ≤ F_f,max |
| Cornering.ScooterAt25KmhOn15m | streamlit_app.py:25-34 | at 25 km/h on a 15 m turn μ_min lies in (0.327, 0.328), safe at μ = 0.80 and not at μ = 0.10 |
| CorneringSweep.Label | streamlit_app.py:138 | the label is "Sí" exactly when safe and "No" exactly when not |
| CorneringSweep.MuMinValues | streamlit_app.py:130 | μ_min of every radius, in the order of the radii; non-negative at every positive radius |
| CorneringSweep.RadiusSweep | streamlit_app.py:129-139 | one row per radius, in order, with its μ_min and θ; the label is "Sí" when μ_available ≥ μ_min and "No" otherwise |
| CorneringSweep.MuMinValuesNonIncreasing | streamlit_app.py:130 | over ascending positive radii the μ_min column never increases |
| CorneringSweep.SafeRadiiUpwardClosed | streamlit_app.py:129-139 | over ascending positive radii, a radius labelled "Sí" is followed only by radii labelled "Sí" |
| CorneringSweep.SafeCell | streamlit_app.py:189 | a cell is 1 exactly when safe and 0 exactly when not |
| CorneringSweep.Boundary | streamlit_app.py:201 | the boundary row of a column lies within the grid |
| CorneringSweep.ColumnBoundary | streamlit_app.py:185-201 | for ascending μ values a column is 0 below its boundary row and 1 from it on: one frontier per radius |
| CorneringSweep.ColumnMonotone | streamlit_app.py:185-189 | for ascending μ values a safe cell stays safe up its column |
| CorneringSweep.RowMonotone | streamlit_app.py:185-189 | over ascending positive radii a safe cell stays safe along its row |
| CorneringSweep.SafetyMatrix | streamlit_app.py:185-189 | a fresh \|μ grid\| × \|radii\| matrix whose cell (i, j) is 1 iff μ_i ≥ μ_min,j; for ascending μ values each column switches once, at its boundary row; when the μ_min values never increase, a safe cell stays safe along its row |
| CorneringSweep.SafetyMap | streamlit_app.py:130-189 | the map over the radii themselves: \|μ grid\| × \|radii\| cells, cell (i, j) is 1 iff μ_i ≥ μ_min(v, r_j) and 0 iff not; one frontier per column for ascending μ; safe cells stay safe along a row for ascending positive radii |
| CorneringSweep.MapRowMatchesTable | streamlit_app.py:129-189 | a cell at μ = μ_available is 1 exactly where the radius table says "Sí" |

## Left out

- Drawing and export: the matplotlib figures (`draw_vehicle_on_slope`,
  `draw_energy_consumption_journey`), `fig_to_bytes`, the Plotly charts and
  the CSV download. They are presentation and I/O.
- The web page itself: sidebar widgets, presets kept in session state,
  metrics and captions. These are user interface. The values the core
  receives from them are parameters.
- `np.linspace`: the radii and the μ grid are given sequences. Their being
  ascending is a `requires` on the lemmas that need it.
- Table mechanics: the DataFrame and its column headers. Rows are the
  datatypes `SweepRow` and `RadiusRow`.
- `math.sqrt`, `math.atan` and `math.degrees` are foreign calls and become
  the parameters `sqrt` and `atanDeg`. The model does not compute their
  values.
- The estimated-autonomy figure on the EV page, with its infinite value for
  zero consumption, belongs to the page, not to the core.
- Floating point: all arithmetic is exact over `real`. So identities such
  as sin² + cos² = 1 hold exactly, where IEEE rounding would only
  approximate them.
- CorneringSweep.SafetyMatrix: the source overwrites a whole row at once
  with a vectorised comparison. The model writes that row cell by cell in
  an inner loop.
- Cornering.MuMin and Cornering.ThetaDeg: the source functions take an
  optional gravity argument that defaults to G. Every call uses the default,
  so the model fixes it to G.
- CorneringSweep.SafetyMatrix: the source matrix is allocated with floating
  zeros and holds 1.0 and 0.0. The model's matrix holds the integers 1 and 0.
