/**
  The six per-pollutant entry points. Each binds the interpolator to its own
  breakpoint table and adds nothing else; the contracts below state, per
  pollutant, which readings get a value and what range that value has.
 */
module Pollutants {
  import opened Formula
  import opened Breakpoints
  import opened Interpolator

  /** What every well-formed table promises about a lookup, in terms of the
      table's first Il, last Ih and last BPh. */
  lemma LookupFacts(c: real, t: seq<Segment>)
    requires WellFormed(t)
    ensures Interpolate(c, t).Value? <==> 0.0 <= c < Upper(t) as real
    ensures Interpolate(c, t).Value? ==>
              t[0].iLo as real <= Interpolate(c, t).v <= t[|t| - 1].iHi as real
  {
    InterpolateDomain(c, t);
    if Interpolate(c, t).Value? {
      InterpolateRange(c, t);
    }
  }

  /** PM2.5: a value in [0, 500] exactly for readings in [0, 500). */
  function AqiPm25(c: real): (r: Iaqi)
    ensures r.Value? <==> 0.0 <= c < 500.0
    ensures r.Value? ==> 0.0 <= r.v <= 500.0
  {
    Pm25TableWellFormed();
    LookupFacts(c, Pm25Table);
    Interpolate(c, Pm25Table)
  }

  /** PM10: a value in [0, 500] exactly for readings in [0, 600). */
  function AqiPm10(c: real): (r: Iaqi)
    ensures r.Value? <==> 0.0 <= c < 600.0
    ensures r.Value? ==> 0.0 <= r.v <= 500.0
  {
    Pm10TableWellFormed();
    LookupFacts(c, Pm10Table);
    Interpolate(c, Pm10Table)
  }

  /** CO: a value in [0, 500] exactly for readings in [0, 60). */
  function AqiCo(c: real): (r: Iaqi)
    ensures r.Value? <==> 0.0 <= c < 60.0
    ensures r.Value? ==> 0.0 <= r.v <= 500.0
  {
    CoTableWellFormed();
    LookupFacts(c, CoTable);
    Interpolate(c, CoTable)
  }

  /** SO2: a value in [0, 500] exactly for readings in [0, 2620). */
  function AqiSo2(c: real): (r: Iaqi)
    ensures r.Value? <==> 0.0 <= c < 2620.0
    ensures r.Value? ==> 0.0 <= r.v <= 500.0
  {
    So2TableWellFormed();
    LookupFacts(c, So2Table);
    Interpolate(c, So2Table)
  }

  /** NO2: a value in [0, 500] exactly for readings in [0, 940). */
  function AqiNo2(c: real): (r: Iaqi)
    ensures r.Value? <==> 0.0 <= c < 940.0
    ensures r.Value? ==> 0.0 <= r.v <= 500.0
  {
    No2TableWellFormed();
    LookupFacts(c, No2Table);
    Interpolate(c, No2Table)
  }

  /** O3 (8-hour): a value in [0, 300] exactly for readings in [0, 800). */
  function AqiO3(c: real): (r: Iaqi)
    ensures r.Value? <==> 0.0 <= c < 800.0
    ensures r.Value? ==> 0.0 <= r.v <= 300.0
  {
    O3TableWellFormed();
    LookupFacts(c, O3Table);
    Interpolate(c, O3Table)
  }

  /** PM2.5 on its breakpoints: 35 enters the second row at 50 and 75
      enters the third row at 100. */
  lemma Pm25BoundaryScenarios()
    ensures AqiPm25(35.0) == Value(50.0)
    ensures AqiPm25(75.0) == Value(100.0)
  {
    Pm25TableWellFormed();
    InterpolateAtLowerBreakpoint(Pm25Table, 1);
    InterpolateAtLowerBreakpoint(Pm25Table, 2);
  }

  /** PM2.5 at 499.99 is still in the last row (350, 500, 400, 500): the
      exact value 499.9933... is rounded to 499.99. */
  lemma Pm25NearTopScenario()
    ensures AqiPm25(499.99) == Value(499.99)
  {
    Pm25TableWellFormed();
    InterpolateUniqueMatch(499.99, Pm25Table, 6);
    var v := Lerp(499.99, 500, 400, 500, 350);
    assert v == 400.0 + 14999.0 / 150.0;
    assert v * 100.0 + 0.5 == 49999.0 + 5.0 / 6.0;
    assert (v * 100.0 + 0.5).Floor == 49999;
  }

  /** PM2.5 at 500, the table's own last breakpoint, is out of range. */
  lemma Pm25AtTopScenario()
    ensures AqiPm25(500.0) == OutOfRange
  {
  }

  /** PM10 at 600, its last breakpoint, and CO at -1 are out of range. */
  lemma OutOfRangeScenarios()
    ensures AqiPm10(600.0) == OutOfRange
    ensures AqiCo(-1.0) == OutOfRange
  {
  }

  /** SO2 at 100 lies in the row (50, 150, 50, 100) and gets exactly 75. */
  lemma So2Scenario()
    ensures AqiSo2(100.0) == Value(75.0)
  {
    So2TableWellFormed();
    InterpolateUniqueMatch(100.0, So2Table, 1);
    assert Lerp(100.0, 100, 50, 150, 50) == 75.0;
    Rounding.Round2OfInteger(75);
  }

  /** O3 at 210 lies in the row (160, 215, 100, 150); the exact value
      100 + 50 * 50 / 55 = 145.4545... is rounded to 145.45. */
  lemma O3Scenario()
    ensures Lerp(210.0, 150, 100, 215, 160) == 100.0 + 2500.0 / 55.0
    ensures AqiO3(210.0) == Value(145.45)
  {
    O3TableWellFormed();
    InterpolateUniqueMatch(210.0, O3Table, 2);
    assert Lerp(210.0, 150, 100, 215, 160) == 100.0 + 2500.0 / 55.0;
  }
}
