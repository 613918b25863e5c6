/**
  Breakpoint tables: for each pollutant, the concentration limits and the
  matching index limits of Table 1 of HJ 633-2012 (24-hour averages, and
  the 8-hour average for O3), as the program writes them.
 */
module Breakpoints {

  /** One row (BPl, BPh, Il, Ih) of a table: concentrations in [bpLo, bpHi)
      map linearly onto index values from iLo towards iHi. */
  datatype Segment = Segment(bpLo: int, bpHi: int, iLo: int, iHi: int)

  /** The half-open test the program applies to each row: BPl <= c < BPh. */
  predicate Covers(s: Segment, c: real) {
    s.bpLo as real <= c < s.bpHi as real
  }

  /** Both the concentration range and the index range of a row rise. */
  predicate Rising(s: Segment) {
    s.bpLo < s.bpHi && s.iLo < s.iHi
  }

  /** Every row rises, each row starts where the previous one ends, and the
      index carries on from where the previous row left it. */
  predicate Chained(t: seq<Segment>) {
    && (forall i :: 0 <= i < |t| ==> Rising(t[i]))
    && (forall i :: 0 < i < |t| ==> t[i - 1].bpHi == t[i].bpLo && t[i - 1].iHi == t[i].iLo)
  }

  /** A usable table: non-empty, chained, and starting at concentration 0. */
  predicate WellFormed(t: seq<Segment>) {
    |t| > 0 && t[0].bpLo == 0 && Chained(t)
  }

  /** The first concentration past the table: the last row's BPh. */
  function Upper(t: seq<Segment>): int
    requires |t| > 0
  {
    t[|t| - 1].bpHi
  }

  /** Rows of a chained table are ordered: an earlier row ends, in both
      concentration and index, no later than a later row starts. */
  lemma {:induction false} ChainedOrdered(t: seq<Segment>, i: int, j: int)
    requires Chained(t)
    requires 0 <= i < j < |t|
    ensures t[i].bpHi <= t[j].bpLo
    ensures t[i].iHi <= t[j].iLo
    decreases j - i
  {
    if i + 1 < j {
      ChainedOrdered(t, i + 1, j);
      assert Rising(t[i + 1]);
    }
  }

  /** Half-open rows of a chained table never overlap: a concentration is
      covered by at most one row. */
  lemma CoversUnique(t: seq<Segment>, c: real, i: int, j: int)
    requires Chained(t)
    requires 0 <= i < |t| && 0 <= j < |t|
    requires Covers(t[i], c) && Covers(t[j], c)
    ensures i == j
  {
    if i < j {
      ChainedOrdered(t, i, j);
    } else if j < i {
      ChainedOrdered(t, j, i);
    }
  }

  /** Every concentration from the first row's BPl up to (not including)
      the last row's BPh is covered by some row. */
  lemma {:induction false} ChainedCoverage(t: seq<Segment>, c: real)
    requires |t| > 0 && Chained(t)
    requires t[0].bpLo as real <= c < Upper(t) as real
    ensures exists i :: 0 <= i < |t| && Covers(t[i], c)
    decreases |t|
  {
    if !Covers(t[0], c) {
      var rest := t[1..];
      assert |rest| > 0;
      assert rest[0] == t[1];
      assert Chained(rest) by {
        forall i | 0 < i < |rest|
          ensures rest[i - 1].bpHi == rest[i].bpLo && rest[i - 1].iHi == rest[i].iLo
        {
          assert rest[i - 1] == t[i] && rest[i] == t[i + 1];
        }
      }
      assert Upper(rest) == Upper(t);
      ChainedCoverage(rest, c);
      var k :| 0 <= k < |rest| && Covers(rest[k], c);
      assert rest[k] == t[k + 1];
    }
  }

  /** A concentration covered by some row lies between the table's first
      BPl and its last BPh (the latter excluded). */
  lemma ChainedCoveredInRange(t: seq<Segment>, c: real, i: int)
    requires Chained(t)
    requires 0 <= i < |t| && Covers(t[i], c)
    ensures t[0].bpLo as real <= c < Upper(t) as real
  {
    if 0 < i {
      ChainedOrdered(t, 0, i);
      assert Rising(t[0]);
    }
    if i < |t| - 1 {
      ChainedOrdered(t, i, |t| - 1);
      assert Rising(t[|t| - 1]);
    }
  }

  /** PM2.5, 24-hour average, ug/m3. */
  const Pm25Table: seq<Segment> := [
    Segment(0, 35, 0, 50),
    Segment(35, 75, 50, 100),
    Segment(75, 115, 100, 150),
    Segment(115, 150, 150, 200),
    Segment(150, 250, 200, 300),
    Segment(250, 350, 300, 400),
    Segment(350, 500, 400, 500)
  ]

  /** PM10, 24-hour average, ug/m3. */
  const Pm10Table: seq<Segment> := [
    Segment(0, 50, 0, 50),
    Segment(50, 150, 50, 100),
    Segment(150, 250, 100, 150),
    Segment(250, 350, 150, 200),
    Segment(350, 420, 200, 300),
    Segment(420, 500, 300, 400),
    Segment(500, 600, 400, 500)
  ]

  /** CO, 24-hour average (mg/m3 in HJ 633-2012). */
  const CoTable: seq<Segment> := [
    Segment(0, 2, 0, 50),
    Segment(2, 4, 50, 100),
    Segment(4, 14, 100, 150),
    Segment(14, 24, 150, 200),
    Segment(24, 36, 200, 300),
    Segment(36, 48, 300, 400),
    Segment(48, 60, 400, 500)
  ]

  /** SO2, 24-hour average, ug/m3. */
  const So2Table: seq<Segment> := [
    Segment(0, 50, 0, 50),
    Segment(50, 150, 50, 100),
    Segment(150, 475, 100, 150),
    Segment(475, 800, 150, 200),
    Segment(800, 1600, 200, 300),
    Segment(1600, 2100, 300, 400),
    Segment(2100, 2620, 400, 500)
  ]

  /** NO2, 24-hour average, ug/m3. */
  const No2Table: seq<Segment> := [
    Segment(0, 40, 0, 50),
    Segment(40, 80, 50, 100),
    Segment(80, 180, 100, 150),
    Segment(180, 280, 150, 200),
    Segment(280, 565, 200, 300),
    Segment(565, 750, 300, 400),
    Segment(750, 940, 400, 500)
  ]

  /** O3, 8-hour average, ug/m3. */
  const O3Table: seq<Segment> := [
    Segment(0, 100, 0, 50),
    Segment(100, 160, 50, 100),
    Segment(160, 215, 100, 150),
    Segment(215, 265, 150, 200),
    Segment(265, 800, 200, 300)
  ]

  /** Each table is well formed, starts at index 0 and ends at index 500
      (300 for O3), at the concentration where the table stops. */
  lemma Pm25TableWellFormed()
    ensures WellFormed(Pm25Table) && Upper(Pm25Table) == 500
    ensures Pm25Table[0].iLo == 0 && Pm25Table[|Pm25Table| - 1].iHi == 500
  {
  }

  lemma Pm10TableWellFormed()
    ensures WellFormed(Pm10Table) && Upper(Pm10Table) == 600
    ensures Pm10Table[0].iLo == 0 && Pm10Table[|Pm10Table| - 1].iHi == 500
  {
  }

  lemma CoTableWellFormed()
    ensures WellFormed(CoTable) && Upper(CoTable) == 60
    ensures CoTable[0].iLo == 0 && CoTable[|CoTable| - 1].iHi == 500
  {
  }

  lemma So2TableWellFormed()
    ensures WellFormed(So2Table) && Upper(So2Table) == 2620
    ensures So2Table[0].iLo == 0 && So2Table[|So2Table| - 1].iHi == 500
  {
  }

  lemma No2TableWellFormed()
    ensures WellFormed(No2Table) && Upper(No2Table) == 940
    ensures No2Table[0].iLo == 0 && No2Table[|No2Table| - 1].iHi == 500
  {
  }

  lemma O3TableWellFormed()
    ensures WellFormed(O3Table) && Upper(O3Table) == 800
    ensures O3Table[0].iLo == 0 && O3Table[|O3Table| - 1].iHi == 300
  {
  }
}
