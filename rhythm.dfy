/**
 * The rhythm calculator: snapping a length to a multiple of the row height, the
 * grid-aligned line height of a font, and the baseline shift (index.js:19-72).
 * JavaScript numbers are idealised as exact reals.
 */
module Rhythm {

  datatype Direction = Nearest | Up | Down

  /** The base font size that converts rem to px. */
  const BaseFontSizePx: real := 16.0

  /** `r` is an integer multiple of `m`. */
  ghost predicate IsMultiple(r: real, m: real)
  {
    exists k: int :: r == Times(k, m)
  }

  /** `k` rows of height `m`. */
  function Times(k: int, m: real): real
  {
    k as real * m
  }

  /** `k` rows of the grid, in px. */
  function RowsPx(k: int, rhythmHeight: real): real
  {
    Times(k, rhythmHeight * BaseFontSizePx)
  }

  /** `value` rounded down to a multiple of `multiple` (Math.floor(value / multiple) * multiple). */
  function RoundedDown(value: real, multiple: real): real
    requires multiple > 0.0
  {
    (value / multiple).Floor as real * multiple
  }

  /** roundToMultiple: the tie-break compares twice the remainder against the multiple. */
  function RoundToMultiple(value: real, multiple: real, direction: Direction): real
    requires multiple > 0.0
  {
    var valueRoundedDown := RoundedDown(value, multiple);
    var isHalfOrOver := (value - valueRoundedDown) * 2.0 >= multiple;
    if direction == Up || (direction == Nearest && isHalfOrOver) then
      valueRoundedDown + multiple
    else
      valueRoundedDown
  }

  lemma ScaleLess(a: real, b: real, m: real)
    requires a < b && m > 0.0
    ensures a * m < b * m
  {
    assert (b - a) * m > 0.0;
  }

  lemma DivMul(v: real, m: real)
    requires m > 0.0
    ensures v / m * m == v
  {
  }

  lemma RoundedDownBelow(value: real, multiple: real)
    requires multiple > 0.0
    ensures RoundedDown(value, multiple) <= value
  {
    var q := value / multiple;
    DivMul(value, multiple);
    if q.Floor as real < q {
      ScaleLess(q.Floor as real, q, multiple);
    }
  }

  lemma RoundedDownAbove(value: real, multiple: real)
    requires multiple > 0.0
    ensures value < RoundedDown(value, multiple) + multiple
  {
    var q := value / multiple;
    var k := q.Floor;
    DivMul(value, multiple);
    ScaleLess(q, k as real + 1.0, multiple);
    assert (k as real + 1.0) * multiple == k as real * multiple + multiple;
  }

  /** The multiple of `multiple` just at or below `value`, and the one just above it. */
  lemma RoundedDownBounds(value: real, multiple: real)
    requires multiple > 0.0
    ensures RoundedDown(value, multiple) <= value < RoundedDown(value, multiple) + multiple
    ensures IsMultiple(RoundedDown(value, multiple), multiple)
  {
    RoundedDownBelow(value, multiple);
    RoundedDownAbove(value, multiple);
    var k := (value / multiple).Floor;
    assert RoundedDown(value, multiple) == Times(k, multiple);
  }

  /** The result is the rounded-down multiple or the one above it, so it is itself a multiple. */
  lemma RoundToMultipleIsMultiple(value: real, multiple: real, direction: Direction)
    requires multiple > 0.0
    ensures var r := RoundToMultiple(value, multiple, direction);
      var base := RoundedDown(value, multiple);
      (r == base || r == base + multiple) && IsMultiple(r, multiple)
  {
    var q := (value / multiple).Floor;
    assert RoundedDown(value, multiple) == Times(q, multiple);
    assert Times(q + 1, multiple) == RoundedDown(value, multiple) + multiple;
  }

  /** `Up` always moves one step above the rounded-down multiple, even from an exact multiple. */
  lemma RoundUpIsAbove(value: real, multiple: real)
    requires multiple > 0.0
    ensures var r := RoundToMultiple(value, multiple, Up);
      r == RoundedDown(value, multiple) + multiple && value < r <= value + multiple
    ensures IsMultiple(value, multiple) ==> RoundToMultiple(value, multiple, Up) == value + multiple
  {
    RoundedDownBounds(value, multiple);
    if IsMultiple(value, multiple) {
      var k: int :| value == Times(k, multiple);
      assert value / multiple == k as real;
      assert (value / multiple).Floor == k;
      assert RoundedDown(value, multiple) == value;
    }
  }

  lemma RoundDownIsBelow(value: real, multiple: real)
    requires multiple > 0.0
    ensures var r := RoundToMultiple(value, multiple, Down);
      r == RoundedDown(value, multiple) && value - multiple < r <= value
  {
    RoundedDownBounds(value, multiple);
  }

  /** `Nearest` is within half a multiple of the value, and a tie rounds up. */
  lemma RoundNearestWithinHalf(value: real, multiple: real)
    requires multiple > 0.0
    ensures var r := RoundToMultiple(value, multiple, Nearest);
      -multiple / 2.0 < r - value <= multiple / 2.0
    ensures var base := RoundedDown(value, multiple);
      (value - base) * 2.0 == multiple ==> RoundToMultiple(value, multiple, Nearest) == base + multiple
  {
    RoundedDownBounds(value, multiple);
  }

  /** No multiple of `multiple` is closer to `value` than the `Nearest` result. */
  lemma {:induction false} RoundNearestIsClosest(value: real, multiple: real, k: int)
    requires multiple > 0.0
    ensures var r := RoundToMultiple(value, multiple, Nearest);
      Abs(r - value) <= Abs(k as real * multiple - value)
  {
    RoundedDownBounds(value, multiple);
    var q := (value / multiple).Floor;
    var base := RoundedDown(value, multiple);
    assert base == q as real * multiple;
    if k <= q {
      assert (q - k) as real * multiple >= 0.0;
      assert k as real * multiple <= base;
    } else {
      assert (k - q - 1) as real * multiple >= 0.0;
      assert k as real * multiple >= base + multiple;
    }
  }

  function Abs(x: real): (a: real)
    ensures a >= 0.0 && (a == x || a == -x)
  {
    if x < 0.0 then -x else x
  }

  /** rhythmLineHeight, in rem: the desired line height snapped to the grid, never below the cap height. */
  function RhythmLineHeight(rhythmHeight: real, capHeightFraction: real, fontSizeRem: real,
                            desiredLineHeight: real): real
    requires rhythmHeight > 0.0
  {
    RoundedHeightPx(rhythmHeight, capHeightFraction, fontSizeRem, desiredLineHeight) / BaseFontSizePx
  }

  /** The cap height of the font, in px. */
  function CapHeightPx(capHeightFraction: real, fontSizeRem: real): real
  {
    capHeightFraction * (fontSizeRem * BaseFontSizePx)
  }

  /** The line height to the nearest rhythm line, in px, before the cap-height correction. */
  function NearestHeightPx(rhythmHeight: real, fontSizeRem: real, desiredLineHeight: real): real
    requires rhythmHeight > 0.0
  {
    RoundToMultiple(desiredLineHeight * (fontSizeRem * BaseFontSizePx), rhythmHeight * BaseFontSizePx, Nearest)
  }

  /** True when the nearest rhythm line would clip the cap height and the height is rounded up instead. */
  predicate CapCorrected(rhythmHeight: real, capHeightFraction: real, fontSizeRem: real,
                         desiredLineHeight: real)
    requires rhythmHeight > 0.0
  {
    NearestHeightPx(rhythmHeight, fontSizeRem, desiredLineHeight) < CapHeightPx(capHeightFraction, fontSizeRem)
  }

  function RoundedHeightPx(rhythmHeight: real, capHeightFraction: real, fontSizeRem: real,
                           desiredLineHeight: real): real
    requires rhythmHeight > 0.0
  {
    var roundedHeightPx := NearestHeightPx(rhythmHeight, fontSizeRem, desiredLineHeight);
    var capHeightPx := CapHeightPx(capHeightFraction, fontSizeRem);
    if roundedHeightPx < capHeightPx then
      RoundToMultiple(capHeightPx, rhythmHeight * BaseFontSizePx, Up)
    else
      roundedHeightPx
  }

  /** The line height in px is a whole number of rows, so it sits on the grid. */
  lemma LineHeightOnGrid(rhythmHeight: real, capHeightFraction: real, fontSizeRem: real,
                         desiredLineHeight: real)
    requires rhythmHeight > 0.0
    ensures var lh := RhythmLineHeight(rhythmHeight, capHeightFraction, fontSizeRem, desiredLineHeight);
      IsMultiple(lh * BaseFontSizePx, rhythmHeight * BaseFontSizePx) && IsMultiple(lh, rhythmHeight)
  {
    var rowPx := rhythmHeight * BaseFontSizePx;
    var lh := RhythmLineHeight(rhythmHeight, capHeightFraction, fontSizeRem, desiredLineHeight);
    var px := RoundedHeightPx(rhythmHeight, capHeightFraction, fontSizeRem, desiredLineHeight);
    if CapCorrected(rhythmHeight, capHeightFraction, fontSizeRem, desiredLineHeight) {
      RoundToMultipleIsMultiple(CapHeightPx(capHeightFraction, fontSizeRem), rowPx, Up);
    } else {
      RoundToMultipleIsMultiple(desiredLineHeight * (fontSizeRem * BaseFontSizePx), rowPx, Nearest);
    }
    var k: int :| px == Times(k, rowPx);
    assert lh * BaseFontSizePx == Times(k, rowPx);
    assert lh == Times(k, rhythmHeight);
  }

  /** The line height never clips the cap height; after a correction it is strictly above it. */
  lemma LineHeightAboveCapHeight(rhythmHeight: real, capHeightFraction: real, fontSizeRem: real,
                                 desiredLineHeight: real)
    requires rhythmHeight > 0.0
    ensures var lh := RhythmLineHeight(rhythmHeight, capHeightFraction, fontSizeRem, desiredLineHeight);
      lh >= capHeightFraction * fontSizeRem
    ensures CapCorrected(rhythmHeight, capHeightFraction, fontSizeRem, desiredLineHeight) ==>
      RhythmLineHeight(rhythmHeight, capHeightFraction, fontSizeRem, desiredLineHeight) > capHeightFraction * fontSizeRem
  {
    var capPx := CapHeightPx(capHeightFraction, fontSizeRem);
    RoundUpIsAbove(capPx, rhythmHeight * BaseFontSizePx);
    assert capPx / BaseFontSizePx == capHeightFraction * fontSizeRem;
  }

  /**
   * Without a correction the line height is the nearest row multiple to the desired height: in px,
   * no whole number of rows is closer to the desired height.
   */
  lemma UncorrectedIsNearest(rhythmHeight: real, capHeightFraction: real, fontSizeRem: real,
                             desiredLineHeight: real)
    requires rhythmHeight > 0.0
    requires !CapCorrected(rhythmHeight, capHeightFraction, fontSizeRem, desiredLineHeight)
    ensures RhythmLineHeight(rhythmHeight, capHeightFraction, fontSizeRem, desiredLineHeight) * BaseFontSizePx
      == RoundToMultiple(desiredLineHeight * fontSizeRem * BaseFontSizePx, rhythmHeight * BaseFontSizePx, Nearest)
    ensures var px := RhythmLineHeight(rhythmHeight, capHeightFraction, fontSizeRem, desiredLineHeight) * BaseFontSizePx;
      var desiredPx := desiredLineHeight * fontSizeRem * BaseFontSizePx;
      forall k: int :: Abs(px - desiredPx) <= Abs(RowsPx(k, rhythmHeight) - desiredPx)
  {
    var desiredPx := desiredLineHeight * fontSizeRem * BaseFontSizePx;
    var rowPx := rhythmHeight * BaseFontSizePx;
    assert desiredPx == desiredLineHeight * (fontSizeRem * BaseFontSizePx);
    forall k: int
      ensures Abs(RoundToMultiple(desiredPx, rowPx, Nearest) - desiredPx) <= Abs(RowsPx(k, rhythmHeight) - desiredPx)
    {
      RoundNearestIsClosest(desiredPx, rowPx, k);
    }
  }

  /**
   * The correction rounds `up`, which always adds a row: when the cap height is itself a whole
   * number of rows, the corrected line height is one row above it rather than equal to it.
   */
  lemma CorrectionFromExactMultiple(rhythmHeight: real, capHeightFraction: real, fontSizeRem: real,
                                    desiredLineHeight: real)
    requires rhythmHeight > 0.0
    requires CapCorrected(rhythmHeight, capHeightFraction, fontSizeRem, desiredLineHeight)
    requires IsMultiple(CapHeightPx(capHeightFraction, fontSizeRem), rhythmHeight * BaseFontSizePx)
    ensures RhythmLineHeight(rhythmHeight, capHeightFraction, fontSizeRem, desiredLineHeight)
      == capHeightFraction * fontSizeRem + rhythmHeight
  {
    var capPx := CapHeightPx(capHeightFraction, fontSizeRem);
    RoundUpIsAbove(capPx, rhythmHeight * BaseFontSizePx);
    assert (capPx + rhythmHeight * BaseFontSizePx) / BaseFontSizePx == capHeightFraction * fontSizeRem + rhythmHeight;
  }

  /** rhythmShift: half the space the line box leaves above the cap height. */
  function RhythmShift(capHeightFraction: real, lineHeightRem: real, fontSizeRem: real): (shift: real)
    ensures lineHeightRem == fontSizeRem * capHeightFraction + 2.0 * shift
  {
    var capHeight := fontSizeRem * capHeightFraction;
    (lineHeightRem - capHeight) / 2.0
  }

  /** The shift applied to a grid-aligned line height is never negative. */
  lemma ShiftOfRhythmLineHeight(rhythmHeight: real, capHeightFraction: real, fontSizeRem: real,
                                desiredLineHeight: real)
    requires rhythmHeight > 0.0
    ensures var lh := RhythmLineHeight(rhythmHeight, capHeightFraction, fontSizeRem, desiredLineHeight);
      RhythmShift(capHeightFraction, lh, fontSizeRem) >= 0.0
  {
    LineHeightAboveCapHeight(rhythmHeight, capHeightFraction, fontSizeRem, desiredLineHeight);
  }

  /** The configuration of the example project: rows of 0.5rem, cap height 0.705, a 1rem font, line height 1.5. */
  lemma ExampleLineHeight()
    ensures RhythmLineHeight(0.5, 0.705, 1.0, 1.5) == 1.5
    ensures RhythmShift(0.705, 1.5, 1.0) == 0.3975
  {
    assert 1.5 * (1.0 * BaseFontSizePx) == 24.0;
    assert 24.0 / (0.5 * BaseFontSizePx) == 3.0;
    assert (3.0).Floor == 3;
  }
}
