/**
  The breakpoint interpolator: find the row of a table whose half-open
  concentration range holds the reading and evaluate the IAQI formula on it,
  or report that the reading lies outside the table.
 */
module Interpolator {
  import opened Rounding
  import opened Formula
  import opened Breakpoints

  /** The outcome of one lookup: an index value, or the out-of-range marker
      the program returns as a text message instead of a number. */
  datatype Iaqi = Value(v: real) | OutOfRange

  /** The formula evaluated on one row of a table. */
  function Evaluate(s: Segment, c: real): real
    requires s.bpLo != s.bpHi
  {
    CalculateAqi(c, s.iHi, s.iLo, s.bpHi, s.bpLo)
  }

  /** The index of the first row covering `c`, if any: rows are tried in
      order, as the program's loop does. */
  datatype Match = Row(index: nat) | NoRow

  /** First-match search. It finds row `k` exactly when row `k` covers `c`
      and no earlier row does, and finds nothing exactly when no row covers `c`. */
  function FindSegment(c: real, t: seq<Segment>): (m: Match)
    ensures m.Row? ==> m.index < |t| && Covers(t[m.index], c)
    ensures m.Row? ==> forall j :: 0 <= j < m.index ==> !Covers(t[j], c)
    ensures m.NoRow? <==> forall j :: 0 <= j < |t| ==> !Covers(t[j], c)
    decreases |t|
  {
    if |t| == 0 then
      NoRow
    else if Covers(t[0], c) then
      Row(0)
    else
      var m := FindSegment(c, t[1..]);
      assert forall j :: 0 < j < |t| ==> t[j] == t[1..][j - 1];
      match m
      case NoRow => NoRow
      case Row(k) => Row(k + 1)
  }

  /** The lookup: the formula on the first covering row, or the out-of-range
      marker when no row covers `c`. A value comes back exactly when some
      row covers `c`. */
  function Interpolate(c: real, t: seq<Segment>): (r: Iaqi)
    ensures r.Value? <==> exists i :: 0 <= i < |t| && Covers(t[i], c)
  {
    match FindSegment(c, t)
    case NoRow => OutOfRange
    case Row(k) => Value(Evaluate(t[k], c))
  }

  /** The program's `for` loop over the table, returning on the first row
      that covers `c` and the out-of-range marker after the last row; it
      computes the same outcome as `Interpolate`. */
  method Scan(c: real, t: seq<Segment>) returns (r: Iaqi)
    ensures r == Interpolate(c, t)
  {
    var i := 0;
    while i < |t|
      invariant 0 <= i <= |t|
      invariant forall j :: 0 <= j < i ==> !Covers(t[j], c)
    {
      if Covers(t[i], c) {
        FindSegmentFirst(c, t, i);
        return Value(Evaluate(t[i], c));
      }
      i := i + 1;
    }
    return OutOfRange;
  }

  /** When row `i` is the first row covering `c`, the search finds row `i`. */
  lemma FindSegmentFirst(c: real, t: seq<Segment>, i: int)
    requires 0 <= i < |t| && Covers(t[i], c)
    requires forall j :: 0 <= j < i ==> !Covers(t[j], c)
    ensures FindSegment(c, t) == Row(i)
  {
  }

  /** In a chained table the first covering row is the only covering row,
      so the search finds whichever row covers `c`. */
  lemma FindSegmentUnique(c: real, t: seq<Segment>, i: int)
    requires Chained(t)
    requires 0 <= i < |t| && Covers(t[i], c)
    ensures FindSegment(c, t) == Row(i)
  {
    var m := FindSegment(c, t);
    assert m.Row?;
    CoversUnique(t, c, i, m.index);
  }

  /** In a chained table the first covering row is the only covering row,
      so the lookup evaluates whichever row covers `c`. */
  lemma InterpolateUniqueMatch(c: real, t: seq<Segment>, i: int)
    requires Chained(t)
    requires 0 <= i < |t| && Covers(t[i], c)
    ensures Interpolate(c, t) == Value(Evaluate(t[i], c))
  {
    FindSegmentUnique(c, t, i);
  }

  /** A well-formed table yields a value exactly for readings in
      [0, last BPh); a negative reading, or one at or above the last BPh,
      yields the out-of-range marker. */
  lemma InterpolateDomain(c: real, t: seq<Segment>)
    requires WellFormed(t)
    ensures Interpolate(c, t).Value? <==> 0.0 <= c < Upper(t) as real
    ensures Interpolate(c, t) == OutOfRange <==> c < 0.0 || Upper(t) as real <= c
  {
    if 0.0 <= c < Upper(t) as real {
      ChainedCoverage(t, c);
    }
    if Interpolate(c, t).Value? {
      var i :| 0 <= i < |t| && Covers(t[i], c);
      ChainedCoveredInRange(t, c, i);
    }
  }

  /** A reading on the lower breakpoint of a row gets exactly that row's
      lower index: the boundary belongs to the row that starts there. */
  lemma InterpolateAtLowerBreakpoint(t: seq<Segment>, i: int)
    requires Chained(t)
    requires 0 <= i < |t|
    ensures Interpolate(t[i].bpLo as real, t) == Value(t[i].iLo as real)
  {
    assert Rising(t[i]);
    InterpolateUniqueMatch(t[i].bpLo as real, t, i);
  }

  /** A reading covered by a row gets an index between that row's Il and Ih,
      both for the exact formula (where it stays below Ih) and once rounded. */
  lemma InterpolateWithinSegment(c: real, t: seq<Segment>, i: int)
    requires Chained(t)
    requires 0 <= i < |t| && Covers(t[i], c)
    ensures t[i].iLo as real <= Lerp(c, t[i].iHi, t[i].iLo, t[i].bpHi, t[i].bpLo) < t[i].iHi as real
    ensures Interpolate(c, t).Value?
    ensures t[i].iLo as real <= Interpolate(c, t).v <= t[i].iHi as real
  {
    assert Rising(t[i]);
    InterpolateUniqueMatch(c, t, i);
    LerpWithinSegment(c, t[i].iHi, t[i].iLo, t[i].bpHi, t[i].bpLo);
  }

  /** Every value a chained table yields lies between its first Il and its
      last Ih. */
  lemma InterpolateRange(c: real, t: seq<Segment>)
    requires Chained(t)
    requires Interpolate(c, t).Value?
    ensures t[0].iLo as real <= Interpolate(c, t).v <= t[|t| - 1].iHi as real
  {
    var i :| 0 <= i < |t| && Covers(t[i], c);
    InterpolateWithinSegment(c, t, i);
    if 0 < i {
      ChainedOrdered(t, 0, i);
      assert Rising(t[0]);
    }
    if i < |t| - 1 {
      ChainedOrdered(t, i, |t| - 1);
      assert Rising(t[|t| - 1]);
    }
  }

  /** The whole mapping is monotone: of two readings that both get a value,
      the larger reading never gets the smaller index. Within one row this is
      the rising formula and monotone rounding; across rows it is the index
      carrying on from one row to the next. */
  lemma InterpolateMonotone(c1: real, c2: real, t: seq<Segment>)
    requires Chained(t)
    requires c1 <= c2
    requires Interpolate(c1, t).Value? && Interpolate(c2, t).Value?
    ensures Interpolate(c1, t).v <= Interpolate(c2, t).v
  {
    var i1 :| 0 <= i1 < |t| && Covers(t[i1], c1);
    var i2 :| 0 <= i2 < |t| && Covers(t[i2], c2);
    InterpolateWithinSegment(c1, t, i1);
    InterpolateWithinSegment(c2, t, i2);
    if i1 == i2 {
      var s := t[i1];
      assert Rising(s);
      LerpMonotone(c1, c2, s.iHi, s.iLo, s.bpHi, s.bpLo);
      Round2Monotone(Lerp(c1, s.iHi, s.iLo, s.bpHi, s.bpLo), Lerp(c2, s.iHi, s.iLo, s.bpHi, s.bpLo));
      InterpolateUniqueMatch(c1, t, i1);
      InterpolateUniqueMatch(c2, t, i2);
    } else if i1 < i2 {
      ChainedOrdered(t, i1, i2);
    } else {
      ChainedOrdered(t, i2, i1);
      assert false;
    }
  }
}
