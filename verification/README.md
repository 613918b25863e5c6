# IAQI breakpoint interpolator

This is a Dafny model of the individual air quality index (IAQI) calculator in
`GB3095-2012_IAQI_O3_8h.py`. The calculator follows HJ 633-2012, the companion
regulation to GB 3095-2012. For each of six pollutants (PM2.5, PM10, CO, SO2,
NO2 and the 8-hour average of O3), it holds a constant breakpoint table of rows
`(BPl, BPh, Il, Ih)`. It scans that table in order for the first row with
`BPl <= c < BPh` and returns

    round((Ih - Il) / (BPh - BPl) * (c - BPl) + Il, 2)

If no row matches, it returns an out-of-range message instead of a number.

The model is written over Dafny `real`, which holds exact rationals. Every
breakpoint in the program is an integer, so no floating-point error enters the
arithmetic.

- `rounding.dfy` (`Rounding`): `Round2` rounds to two decimals, with halves
  rounded up. The module also proves that `Round2` is monotone and leaves
  hundredths (so also integers) unchanged.
- `formula.dfy` (`Formula`): `Lerp` is the exact IAQI formula. `CalculateAqi`
  is the same formula rounded, with the program's argument order
  `(Cp, Ih, Il, BPh, BPl)`.
- `breakpoints.dfy` (`Breakpoints`): `Segment` is one table row. The module
  defines the half-open `Covers` test, the `Chained` and `WellFormed`
  invariants of a table, and the six constant tables. It also proves that rows
  are ordered, unique and cover the whole table range.
- `interpolator.dfy` (`Interpolator`): `Iaqi = Value(v) | OutOfRange` replaces
  the program's mix of a number and a message string. `FindSegment` is the
  recursive first-match search for a row, and `Interpolate` evaluates the
  formula on the row it finds. `Scan` is the program's `for` loop, proved
  equal to `Interpolate`. The module also holds the lemmas on unique match,
  domain, boundary ownership, bounds and monotonicity.
- `pollutants.dfy` (`Pollutants`): the six entry points and the concrete
  scenarios.

The program's Python `float` arithmetic and `round(x, 2)` work on binary
doubles and round halves to even. `Round2` works on exact rationals and rounds
halves up. So the model is not bit-exact with the program when the exact value
sits on, or very near, a half hundredth.

## Model

| member | source | states |
|---|---|---|
| Rounding.Round2 | GB3095-2012_IAQI_O3_8h.py:3 | the result of `round(x, 2)` is a whole number of hundredths within half a hundredth of `x` (half-up on exact rationals) |
| Rounding.Round2Monotone | GB3095-2012_IAQI_O3_8h.py:3 | rounding to two decimals never reverses the order of two values |
| Rounding.Round2OfHundredths | GB3095-2012_IAQI_O3_8h.py:3 | a value that already has at most two decimals is unchanged by the rounding |
| Rounding.Round2OfInteger | GB3095-2012_IAQI_O3_8h.py:3 | every integer, in particular every table index Il or Ih, is unchanged by the rounding |
| Rounding.Round2Between | GB3095-2012_IAQI_O3_8h.py:3 | a value between two integers stays between them after rounding |
| Formula.Lerp | GB3095-2012_IAQI_O3_8h.py:1-3 | the exact formula is the line through (BPl, Il) and (BPh, Ih): it gives Il at BPl and Ih at BPh |
| Formula.LerpMonotone | GB3095-2012_IAQI_O3_8h.py:1-3 | on a rising row the exact formula is non-decreasing in the concentration, and strictly increasing when Il < Ih |
| Formula.LerpWithinSegment | GB3095-2012_IAQI_O3_8h.py:1-3 | for BPl <= Cp <= BPh the exact value lies in [Il, Ih], and it stays below Ih while Cp < BPh |
| Formula.CalculateAqi | GB3095-2012_IAQI_O3_8h.py:1-3 | `calculate_aqi` returns the hundredth nearest the exact formula; it is exactly Il at Cp == BPl; on a rising row with BPl <= Cp <= BPh it lies in [Il, Ih]; it needs BPh != BPl, because otherwise the program divides by zero |
| Breakpoints.ChainedOrdered | GB3095-2012_IAQI_O3_8h.py:8-16 | in a contiguous, rising table an earlier row ends (both BPh and Ih) no later than a later row starts |
| Breakpoints.CoversUnique | GB3095-2012_IAQI_O3_8h.py:17-18 | at most one half-open row `BPl <= c < BPh` of a contiguous table matches a given concentration |
| Breakpoints.ChainedCoverage | GB3095-2012_IAQI_O3_8h.py:17-18 | every concentration in [first BPl, last BPh) is matched by some row |
| Breakpoints.ChainedCoveredInRange | GB3095-2012_IAQI_O3_8h.py:17-18 | a matched concentration lies in [first BPl, last BPh) |
| Breakpoints.Pm25TableWellFormed | GB3095-2012_IAQI_O3_8h.py:8-16 | the PM2.5 table starts at 0, is rising, contiguous and index-continuous, and ends at 500 with index 500 |
| Breakpoints.Pm10TableWellFormed | GB3095-2012_IAQI_O3_8h.py:25-33 | the PM10 table is well formed and ends at 600 with index 500 |
| Breakpoints.CoTableWellFormed | GB3095-2012_IAQI_O3_8h.py:42-50 | the CO table is well formed and ends at 60 with index 500 |
| Breakpoints.So2TableWellFormed | GB3095-2012_IAQI_O3_8h.py:59-67 | the SO2 table is well formed and ends at 2620 with index 500 |
| Breakpoints.No2TableWellFormed | GB3095-2012_IAQI_O3_8h.py:76-84 | the NO2 table is well formed and ends at 940 with index 500 |
| Breakpoints.O3TableWellFormed | GB3095-2012_IAQI_O3_8h.py:93-99 | the O3 8-hour table is well formed and ends at 800 with index 300 |
| Interpolator.FindSegment | GB3095-2012_IAQI_O3_8h.py:17-20 | the in-order scan finds row k exactly when row k satisfies `BPl <= c < BPh` and no earlier row does, and finds nothing exactly when no row does |
| Interpolator.Interpolate | GB3095-2012_IAQI_O3_8h.py:17-20 | the lookup returns a value exactly when some row matches the concentration, and the out-of-range marker otherwise |
| Interpolator.Scan | GB3095-2012_IAQI_O3_8h.py:17-20 | the loop that returns the formula on the first matching row, or the sentinel after the last row, computes the same outcome as the lookup |
| Interpolator.FindSegmentFirst | GB3095-2012_IAQI_O3_8h.py:17-19 | when row i is the first matching row, the search finds row i |
| Interpolator.FindSegmentUnique | GB3095-2012_IAQI_O3_8h.py:17-19 | in a contiguous table the first match is the only match, so the search finds whichever row matches |
| Interpolator.InterpolateUniqueMatch | GB3095-2012_IAQI_O3_8h.py:17-19 | in a contiguous table the lookup returns the formula evaluated on whichever row matches |
| Interpolator.InterpolateDomain | GB3095-2012_IAQI_O3_8h.py:17-20 | for a well-formed table the lookup gives a value if and only if 0 <= c < last BPh, and the sentinel if and only if c < 0 or c >= last BPh |
| Interpolator.InterpolateAtLowerBreakpoint | GB3095-2012_IAQI_O3_8h.py:17-19 | at c == BPl of any row the result is exactly that row's Il: the boundary belongs to the row that starts there |
| Interpolator.InterpolateWithinSegment | GB3095-2012_IAQI_O3_8h.py:17-19 | for c in [BPl, BPh) of a row, the exact value lies in [Il, Ih) and the rounded result in [Il, Ih] |
| Interpolator.InterpolateRange | GB3095-2012_IAQI_O3_8h.py:17-19 | every value a contiguous table yields lies between its first Il and its last Ih |
| Interpolator.InterpolateMonotone | GB3095-2012_IAQI_O3_8h.py:1-19 | for c1 <= c2 that both get a value, the result at c1 is at most the result at c2 |
| Pollutants.LookupFacts | GB3095-2012_IAQI_O3_8h.py:17-20 | for a well-formed table: a value exactly on [0, last BPh), and then between the first Il and the last Ih |
| Pollutants.AqiPm25 | GB3095-2012_IAQI_O3_8h.py:6-20 | `aqi_pm25` returns a value in [0, 500] exactly for readings in [0, 500), and the sentinel otherwise |
| Pollutants.AqiPm10 | GB3095-2012_IAQI_O3_8h.py:23-38 | `aqi_pm10` returns a value in [0, 500] exactly for readings in [0, 600), and the sentinel otherwise |
| Pollutants.AqiCo | GB3095-2012_IAQI_O3_8h.py:41-55 | `aqi_co` returns a value in [0, 500] exactly for readings in [0, 60), and the sentinel otherwise |
| Pollutants.AqiSo2 | GB3095-2012_IAQI_O3_8h.py:58-72 | `aqi_so2` returns a value in [0, 500] exactly for readings in [0, 2620), and the sentinel otherwise |
| Pollutants.AqiNo2 | GB3095-2012_IAQI_O3_8h.py:75-89 | `aqi_no2` returns a value in [0, 500] exactly for readings in [0, 940), and the sentinel otherwise |
| Pollutants.AqiO3 | GB3095-2012_IAQI_O3_8h.py:92-104 | `aqi_o3` returns a value in [0, 300] exactly for readings in [0, 800), and the sentinel otherwise |
| Pollutants.Pm25BoundaryScenarios | GB3095-2012_IAQI_O3_8h.py:10-19 | PM2.5 at 35 gives 50 and at 75 gives 100 |
| Pollutants.Pm25NearTopScenario | GB3095-2012_IAQI_O3_8h.py:15-19 | PM2.5 at 499.99 is still in the last row and gives 499.99 |
| Pollutants.Pm25AtTopScenario | GB3095-2012_IAQI_O3_8h.py:15-20 | PM2.5 at 500, the table's own last breakpoint, gives the sentinel |
| Pollutants.OutOfRangeScenarios | GB3095-2012_IAQI_O3_8h.py:32-55 | PM10 at 600 and CO at -1 give the sentinel |
| Pollutants.So2Scenario | GB3095-2012_IAQI_O3_8h.py:61-71 | SO2 at 100 gives exactly 75 |
| Pollutants.O3Scenario | GB3095-2012_IAQI_O3_8h.py:96-103 | O3 at 210 has exact value 100 + 2500/55 = 145.4545..., rounded to 145.45 |

## Left out

- Console I/O (GB3095-2012_IAQI_O3_8h.py:107-127): the six prompts, the
  `float(input(...))` parsing and the six formatted `print`s. A reading is a
  parameter of each entry point, and the result is returned rather than
  printed. The unit text of the prompts is left out with them. The CO prompt
  says ug/m3, while HJ 633-2012 gives CO in mg/m3.
- The text of the out-of-range message (lines 20, 38, 55, 72, 89, 104) is
  modelled as the `OutOfRange` constructor.
- Rounding.Round2: rounds halves up on exact rationals. Python's `round(x, 2)`
  rounds the binary double, halves to even. The two can differ by 0.01 when
  the exact value is at, or within float error of, a half hundredth.
- Formula.CalculateAqi: computed over exact rationals, not IEEE-754 doubles.
  The result is not bit-exact with the program's float result.
- Non-finite readings are not modelled. `float(input())` can yield NaN or
  infinity, and `real` has neither. In the program, every comparison with NaN
  is false, and `inf < BPh` is false. So both reach the out-of-range message,
  the same outcome the model gives for readings outside the table.
- Negative readings are modelled as the code handles them. The code gives the
  out-of-range message and does not reject them up front, so no entry point
  requires a non-negative reading.
- A composite AQI over the six pollutants and the 1-hour O3 table are not
  part of the program, so they are not modelled.
