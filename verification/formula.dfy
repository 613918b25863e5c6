/**
  The individual air quality index formula of HJ 633-2012:

      IAQI = (Ih - Il) / (BPh - BPl) * (Cp - BPl) + Il

  i.e. the straight line through (BPl, Il) and (BPh, Ih), evaluated at the
  concentration Cp, then rounded to two decimals.
 */
module Formula {
  import opened Rounding

  /** The exact (unrounded) value of the formula. */
  function Lerp(cp: real, ih: int, il: int, bph: int, bpl: int): (v: real)
    requires bph != bpl
    ensures cp == bpl as real ==> v == il as real
    ensures cp == bph as real ==> v == ih as real
  {
    var slope := (ih - il) as real / (bph - bpl) as real;
    assert slope * (bph - bpl) as real == (ih - il) as real;
    slope * (cp - bpl as real) + il as real
  }

  /** On a rising segment the formula is non-decreasing in the concentration,
      and strictly increasing when the index range is not a single point. */
  lemma LerpMonotone(c1: real, c2: real, ih: int, il: int, bph: int, bpl: int)
    requires bpl < bph && il <= ih && c1 <= c2
    ensures Lerp(c1, ih, il, bph, bpl) <= Lerp(c2, ih, il, bph, bpl)
    ensures il < ih && c1 < c2 ==> Lerp(c1, ih, il, bph, bpl) < Lerp(c2, ih, il, bph, bpl)
  {
    var slope := (ih - il) as real / (bph - bpl) as real;
    var d1, d2 := c1 - bpl as real, c2 - bpl as real;
    assert Lerp(c1, ih, il, bph, bpl) == slope * d1 + il as real;
    assert Lerp(c2, ih, il, bph, bpl) == slope * d2 + il as real;
    assert slope * d2 - slope * d1 == slope * (d2 - d1);
    assert slope >= 0.0;
    assert slope * (d2 - d1) >= 0.0;
    if il < ih && c1 < c2 {
      assert slope > 0.0 && d2 - d1 > 0.0;
      assert slope * (d2 - d1) > 0.0;
    }
  }

  /** Between the two breakpoints the exact value lies between the two index
      limits, and stays strictly below the upper one before the upper
      breakpoint is reached. */
  lemma LerpWithinSegment(cp: real, ih: int, il: int, bph: int, bpl: int)
    requires bpl < bph && il <= ih
    requires bpl as real <= cp <= bph as real
    ensures il as real <= Lerp(cp, ih, il, bph, bpl) <= ih as real
    ensures il < ih && cp < bph as real ==> Lerp(cp, ih, il, bph, bpl) < ih as real
  {
    LerpMonotone(bpl as real, cp, ih, il, bph, bpl);
    LerpMonotone(cp, bph as real, ih, il, bph, bpl);
  }

  /** The formula rounded to two decimals, with the program's argument order
      (Cp, Ih, Il, BPh, BPl). It is the hundredth nearest to the exact value,
      it gives exactly Il at the lower breakpoint, and on a rising segment it
      never leaves [Il, Ih]. */
  function CalculateAqi(cp: real, ih: int, il: int, bph: int, bpl: int): (r: real)
    requires bph != bpl
    ensures IsHundredths(r)
    ensures Lerp(cp, ih, il, bph, bpl) - 0.005 < r <= Lerp(cp, ih, il, bph, bpl) + 0.005
    ensures cp == bpl as real ==> r == il as real
    ensures bpl < bph && il <= ih && bpl as real <= cp <= bph as real ==>
              il as real <= r <= ih as real
  {
    var v := Lerp(cp, ih, il, bph, bpl);
    Round2OfInteger(il);
    if bpl < bph && il <= ih && bpl as real <= cp <= bph as real then
      LerpWithinSegment(cp, ih, il, bph, bpl);
      Round2Between(v, il, ih);
      Round2(v)
    else
      Round2(v)
  }
}
