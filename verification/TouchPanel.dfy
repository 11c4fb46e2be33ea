/** Touch-panel scaling (`touchpanel.c`) and calibration (`calibration.c`): fixed-point conversion between raw panel
    readings and screen coordinates with seven fraction bits. */
module TouchPanel {

  // ----- C arithmetic -----

  function Abs(x: int): (r: int)
    ensures r >= 0
  {
    if x < 0 then -x else x
  }

  function Max(x: int, y: int): int { if x < y then y else x }

  /** C division: truncates toward zero. */
  function TruncDiv(a: int, d: int): int
    requires d != 0
  {
    Signed(Abs(a) / Abs(d), (a < 0) != (d < 0))
  }

  function Signed(q: int, negative: bool): int { if negative then -q else q }

  /** `x >> 7` on a signed number: rounds down. */
  function Shr7(x: int): int { x / 128 }

  /** Storing into a `short`. */
  function Int16(x: int): int { (x + 0x8000) % 0x1_0000 - 0x8000 }

  predicate FitsInt16(x: int) { -0x8000 <= x < 0x8000 }

  lemma Int16IsExact(x: int)
    ensures Int16(x) == x <==> FitsInt16(x)
  {
  }

  // ----- scaling -----

  /** A touch panel: the scaling data, the coordinate limits and the current event. */
  class Panel {
    var xRaw: int
    var yRaw: int
    var xSlope: int
    var ySlope: int
    var xIntercept: int
    var yIntercept: int
    var xMin: int
    var xMax: int
    var yMin: int
    var yMax: int
    var eventX: int
    var eventY: int
    var eventType: int

    /** `TP_Pos`: converts the clamped event position back to raw readings; a zero slope leaves the reading alone. */
    method Pos()
      modifies this`xRaw, this`yRaw
      ensures xRaw == (if xSlope == 0 then old(xRaw) else Raw(Bound(eventX, xMin, xMax), xSlope, xIntercept))
      ensures yRaw == (if ySlope == 0 then old(yRaw) else Raw(Bound(eventY, yMin, yMax), ySlope, yIntercept))
    {
      var x, y := eventX, eventY;
      if x < xMin {
        x := xMin;
      }
      if x > xMax {
        x := xMax;
      }
      if y < yMin {
        y := yMin;
      }
      if y > yMax {
        y := yMax;
      }
      if xSlope != 0 {
        xRaw := Int16(TruncDiv((x - xIntercept) * 128, xSlope));
      }
      if ySlope != 0 {
        yRaw := Int16(TruncDiv((y - yIntercept) * 128, ySlope));
      }
    }

    /** The last step of the calibration: slope and intercept of both axes from the readings at the four boxes, in the
        order top left, top right, bottom right, bottom left. */
    method Calibrate(x: seq<int>, y: seq<int>, width: int, height: int)
      requires |x| == |y| == 4
      requires ((x[1] + x[2]) - (x[0] + x[3])) / 2 != 0 && ((y[2] + y[3]) - (y[0] + y[1])) / 2 != 0
      modifies this`xSlope, this`ySlope, this`xIntercept, this`yIntercept
      ensures Calibrated(width, width / 16, 0, x[1] + x[2], x[0] + x[3], xSlope, xIntercept)
      ensures Calibrated(height, width / 16, 40, y[2] + y[3], y[0] + y[1], ySlope, yIntercept)
    {
      CalibrateX(x, width);
      CalibrateY(y, width, height);
    }

    method CalibrateX(x: seq<int>, width: int)
      requires |x| == 4 && ((x[1] + x[2]) - (x[0] + x[3])) / 2 != 0
      modifies this`xSlope, this`xIntercept
      ensures Calibrated(width, width / 16, 0, x[1] + x[2], x[0] + x[3], xSlope, xIntercept)
    {
      var boxSize := width / 16;
      xSlope := Int16(TruncDiv((width - 3 * boxSize) * 128, (x[1] + x[2] - x[0] - x[3]) / 2));
      xIntercept := Int16((width - boxSize - boxSize / 2) - Shr7(xSlope * ((x[1] + x[2]) / 2)));
      ghost var far, near := x[1] + x[2], x[0] + x[3];
      assert x[1] + x[2] - x[0] - x[3] == far - near && width - 3 * boxSize == width - 3 * boxSize - 0;
      assert xSlope == Int16(Slope(width - 3 * boxSize - 0, far, near));
      AxisIsCalibrated(width, boxSize, 0, far, near, xSlope, xIntercept);
    }

    method CalibrateY(y: seq<int>, width: int, height: int)
      requires |y| == 4 && ((y[2] + y[3]) - (y[0] + y[1])) / 2 != 0
      modifies this`ySlope, this`yIntercept
      ensures Calibrated(height, width / 16, 40, y[2] + y[3], y[0] + y[1], ySlope, yIntercept)
    {
      var boxSize := width / 16;
      ySlope := Int16(TruncDiv((height - 3 * boxSize - 40) * 128, (y[3] + y[2] - y[0] - y[1]) / 2));
      yIntercept := Int16((height - boxSize - boxSize / 2) - Shr7(ySlope * ((y[2] + y[3]) / 2)));
      ghost var far, near := y[2] + y[3], y[0] + y[1];
      assert y[3] + y[2] - y[0] - y[1] == far - near;
      assert ySlope == Int16(Slope(height - 3 * boxSize - 40, far, near));
      AxisIsCalibrated(height, boxSize, 40, far, near, ySlope, yIntercept);
    }

    /** `TP_Encode`: converts the raw readings to the event position, within the limits, and marks a move. The position
        is stored whether or not an event was pending. */
    method Encode()
      modifies this`eventX, this`eventY, this`eventType
      ensures eventX == Clamp(Screen(xRaw, xSlope, xIntercept), xMin, xMax)
      ensures eventY == Clamp(Screen(yRaw, ySlope, yIntercept), yMin, yMax)
      ensures eventType ==
              if old(eventType) == 0 && (eventX != old(eventX) || eventY != old(eventY)) then MOVED else old(eventType)
    {
      var x := Int16(Shr7(xRaw * xSlope) + xIntercept);
      var y := Int16(Shr7(yRaw * ySlope) + yIntercept);
      if x < xMin {
        x := xMin;
      } else if x > xMax {
        x := xMax;
      }
      if y < yMin {
        y := yMin;
      } else if y > yMax {
        y := yMax;
      }
      if eventType == 0 && (eventX != x || eventY != y) {
        eventType := MOVED;
      }
      if eventType != 0 {
        eventX := x;
        eventY := y;
      }
    }
  }

  /** The code of a move event, `mPOS`. */
  const MOVED: int := 1

  /** The limits as `TP_Encode` applies them, and as `TP_Pos` does; they differ when the lower limit is above the
      upper. */
  function Clamp(x: int, lo: int, hi: int): int {
    if x < lo then lo else if x > hi then hi else x
  }

  function Bound(x: int, lo: int, hi: int): int {
    if Max(x, lo) > hi then hi else Max(x, lo)
  }

  /** Raw reading of a screen coordinate, for slope `m` and intercept `b`. */
  function Raw(x: int, m: int, b: int): int
    requires m != 0
  {
    Int16(TruncDiv((x - b) * 128, m))
  }

  /** Screen coordinate of a raw reading. */
  function Screen(raw: int, m: int, b: int): int {
    Int16(Shr7(raw * m) + b)
  }

  lemma DivBounds(a: nat, d: nat)
    requires d > 0
    ensures 0 <= (a / d) * d <= a < (a / d) * d + d
  {
    var q := a / d;
    assert a == q * d + a % d;
    Product(q, d);
  }

  lemma Product(q: nat, d: nat)
    ensures q * d >= 0
  {
  }

  lemma SignedProduct(q: int, d: int, negative: bool)
    ensures Signed(q, negative != (d < 0)) * d == Signed(q * Abs(d), negative)
  {
    var e := Abs(d);
    assert (-q) * (-e) == q * e && (-q) * e == -(q * e) && q * (-e) == -(q * e);
  }

  lemma TruncDivBounds(a: int, d: int)
    requires d != 0
    ensures var p := TruncDiv(a, d) * d;
            if a < 0 then a <= p < a + Abs(d) && p <= 0 else a - Abs(d) < p <= a && 0 <= p
  {
    DivBounds(Abs(a), Abs(d));
    SignedProduct(Abs(a) / Abs(d), d, a < 0);
  }

  /** Pixels the round trip may lose: `(|m| - 1) / 128`, rounded up. */
  function Error(m: int): int { (Max(Abs(m) - 1, 0) + 127) / 128 }

  /** Without the 16-bit stores: the converted coordinate never lies beyond the original, seen from the intercept, and
      falls short of it by at most `Error(m)`; below the intercept by at most `(|m| - 1) / 128`, rounded down. */
  lemma RoundTrip(x: int, m: int, b: int)
    requires m != 0
    ensures var x' := Shr7(TruncDiv((x - b) * 128, m) * m) + b;
            if x >= b then x - Error(m) <= x' <= x else x <= x' <= x + (Abs(m) - 1) / 128
  {
    TruncDivBounds((x - b) * 128, m);
  }

  /** The scaled distance of a coordinate from the intercept is within what a 16-bit reading can express. */
  predicate InRange(x: int, m: int, b: int) {
    var a := (x - b) * 128;
    if (a < 0) == (m < 0) then Abs(a) < 0x8000 * Abs(m) else Abs(a) < 0x8001 * Abs(m)
  }

  /** The raw reading survives its 16-bit store exactly when the scaled distance from the intercept is small enough. */
  lemma RawFits(x: int, m: int, b: int)
    requires m != 0
    ensures Raw(x, m, b) == TruncDiv((x - b) * 128, m) <==> InRange(x, m, b)
  {
    var a := (x - b) * 128;
    var q := Abs(a) / Abs(m);
    Int16IsExact(TruncDiv(a, m));
    QuotientBelow(Abs(a), Abs(m), 0x8000);
    QuotientBelow(Abs(a), Abs(m), 0x8001);
  }

  lemma QuotientBelow(a: nat, d: nat, k: nat)
    requires d > 0
    ensures a / d < k <==> a < k * d
  {
    var q := a / d;
    assert a == q * d + a % d;
    if q < k {
      assert (q + 1) * d <= k * d;
    } else {
      assert k * d <= q * d;
    }
  }

  /** The result of setting a position and reading it back is acceptable: never past the original, seen from the
      intercept, and short of it by at most `Error(m)`. */
  predicate Close(x: int, y: int, m: int, b: int) {
    if x >= b then x - Error(m) <= y <= x else x <= y <= x + Error(m)
  }

  /** How often the raw reading wraps when it is stored. */
  function Wraps(x: int, m: int, b: int): int
    requires m != 0
  {
    (TruncDiv((x - b) * 128, m) + 0x8000) / 0x1_0000
  }

  /** One wrap of the reading shifts the converted coordinate by 512 times the slope. */
  lemma WrapShifts(q: int, w: int, m: int)
    ensures Shr7((q - 0x1_0000 * w) * m) == Shr7(q * m) - 512 * (w * m)
  {
    assert (q - 0x1_0000 * w) * m == q * m - 0x1_0000 * (w * m);
  }

  /** A shift by a multiple of 512 is undone by the 16-bit store exactly when it is a multiple of 2^16; otherwise it
      moves the coordinate by at least 512. */
  lemma ShiftedStore(y: int, t: int)
    requires FitsInt16(y)
    ensures if t % 128 == 0 then Int16(y - 512 * t) == y else Abs(Int16(y - 512 * t) - y) >= 512
  {
    var z := y - 512 * t;
    var v := (z + 0x8000) / 0x1_0000;
    assert Int16(z) - y == -512 * (t + 128 * v);
  }

  /** Setting a position and reading it back, for every 16-bit slope other than 0, coordinate and intercept, is
      acceptable if and only if the wraps of the reading cancel: their number times the slope is a multiple of 128. */
  lemma RoundTripExactly(x: int, m: int, b: int)
    requires m != 0 && FitsInt16(m) && FitsInt16(x) && FitsInt16(b)
    ensures Close(x, Screen(Raw(x, m, b), m, b), m, b) <==> (Wraps(x, m, b) * m) % 128 == 0
  {
    var q, w := TruncDiv((x - b) * 128, m), Wraps(x, m, b);
    var y := Shr7(q * m) + b;
    RoundTrip(x, m, b);
    TruncDivBounds((x - b) * 128, m);
    assert if x >= b then b <= y <= x else x <= y <= b;
    assert Raw(x, m, b) == q - 0x1_0000 * w;
    WrapShifts(q, w, m);
    ShiftedStore(y, w * m);
    assert Error(m) <= 256;
  }

  /** With limits that are themselves 16-bit the result is within the limits as well. */
  lemma PosThenEncode(x: int, m: int, b: int, lo: int, hi: int)
    requires m != 0 && FitsInt16(m) && lo <= x <= hi && FitsInt16(lo) && FitsInt16(hi) && FitsInt16(b)
    requires (Wraps(x, m, b) * m) % 128 == 0
    ensures var x' := Clamp(Screen(Raw(x, m, b), m, b), lo, hi);
            Bound(x, lo, hi) == x && lo <= x' <= hi && Close(x, x', m, b)
  {
    RoundTripExactly(x, m, b);
  }

  /** A reading that fits does not wrap. */
  lemma InRangeNeverWraps(x: int, m: int, b: int)
    requires m != 0
    ensures InRange(x, m, b) <==> Wraps(x, m, b) == 0
  {
    RawFits(x, m, b);
    Int16IsExact(TruncDiv((x - b) * 128, m));
  }

  /** Wraps that matter and wraps that cancel: coordinate 256 with slope 1 comes back as the lower limit, and coordinate
      20000 with slope 128 and intercept -20000 as itself. */
  lemma WrappedReading()
    ensures Raw(256, 1, 0) == -0x8000 && Clamp(Screen(Raw(256, 1, 0), 1, 0), 0, 319) == 0
    ensures !InRange(256, 1, 0) && InRange(255, 1, 0)
    ensures !InRange(20000, 128, -20000) && Screen(Raw(20000, 128, -20000), 128, -20000) == 20000
  {
    assert TruncDiv(0x8000, 1) == 0x8000;
    assert Int16(0x8000) == -0x8000;
    assert Shr7(-0x8000) == -256;
    assert TruncDiv(40000 * 128, 128) == 40000;
    assert Int16(40000) == -25536;
    assert Shr7(-25536 * 128) == -25536;
  }

  // ----- calibration -----

  /** Slope and intercept of one axis. `far` and `near` are the sums of the two raw readings at either end, `span` is
      the distance of the box centres the code assumes, and `centre` the centre of the far boxes. */
  function Slope(span: int, far: int, near: int): int
    requires (far - near) / 2 != 0
  {
    TruncDiv(span * 128, (far - near) / 2)
  }

  function Intercept(centre: int, m: int, far: int): int {
    centre - Shr7(m * (far / 2))
  }

  /** The averaged far reading maps exactly to the far box centre, for any slope. */
  lemma FarIsExact(centre: int, m: int, far: int)
    ensures Shr7((far / 2) * m) + Intercept(centre, m, far) == centre
  {
    assert (far / 2) * m == m * (far / 2);
  }

  /** The averaged near reading maps to its box centre within `2 + max(m, D) / 128` pixels. The centres are
      `span + odd` apart, `odd` being the lost half of an odd box size. */
  lemma NearIsBounded(centre: int, span: int, far: int, near: int, odd: int)
    requires (far - near) / 2 > 0 && 0 <= odd <= 1 && Slope(span, far, near) >= 0
    ensures var m, d := Slope(span, far, near), (far - near) / 2;
            var got := Shr7((near / 2) * m) + Intercept(centre, m, far);
            Abs(got - (centre - span - odd)) <= 2 + Max(m, d) / 128
  {
    var d := (far - near) / 2;
    var m := Slope(span, far, near);
    TruncDivBounds(span * 128, d);
    var f, n := far / 2, near / 2;
    assert f - n == d || f - n == d + 1;
    assert -d < m * d - span * 128 < d && (span >= 0 ==> m * d <= span * 128);
    assert m > 0 ==> m * d > 0;
    assert span < 0 ==> m == 0;
    SpanProduct(f, n, m, d);
    NearError(f * m, n * m, span, odd, Max(m, d));
  }

  /** On an axis that runs either way, with a slope of either sign: within `2 + (|m| + |D|) / 128` pixels. */
  lemma NearIsBoundedEitherWay(centre: int, span: int, far: int, near: int, odd: int)
    requires (far - near) / 2 != 0 && 0 <= odd <= 1
    ensures var m, d := Slope(span, far, near), (far - near) / 2;
            var got := Shr7((near / 2) * m) + Intercept(centre, m, far);
            Abs(got - (centre - span - odd)) <= 2 + (Abs(m) + Abs(d)) / 128
  {
    var d := (far - near) / 2;
    var m := Slope(span, far, near);
    TruncDivBounds(span * 128, d);
    var f, n := far / 2, near / 2;
    assert f - n == d || f - n == d + 1;
    SpanProduct(f, n, m, d);
    assert -Abs(d) < m * d - span * 128 < Abs(d);
    NearError(f * m, n * m, span, odd, Abs(m) + Abs(d));
  }

  lemma SpanProduct(f: int, n: int, m: int, d: int)
    requires f - n == d || f - n == d + 1
    ensures f * m - n * m == if f - n == d then m * d else m * d + m
    ensures m * f == f * m
  {
    assert f * m - n * m == (f - n) * m;
    assert (d + 1) * m == m * d + m;
  }

  /** The linear part: rounding both products down moves their difference by less than one pixel. */
  lemma NearError(fm: int, nm: int, span: int, odd: int, bound: int)
    requires 0 <= odd <= 1 && bound >= 0
    requires -bound <= fm - nm - span * 128 <= bound
    ensures Abs(Shr7(nm) - Shr7(fm) + span + odd) <= 2 + bound / 128
  {
  }

  /** Screen geometry of the calibration boxes, and the averaged readings: both axes of `TP_Calibrate`. The far point is
      exact and the near point bounded on each. `top` is the strip above the boxes, 0 for x and 40 for y. */
  lemma CalibrationError(size: int, box: nat, top: int, far: int, near: int)
    requires (far - near) / 2 > 0
    requires Slope(size - 3 * box - top, far, near) >= 0
    ensures var m := Slope(size - 3 * box - top, far, near);
            var b := Intercept(size - box - box / 2, m, far);
            && Shr7((far / 2) * m) + b == size - box - box / 2
            && Abs(Shr7((near / 2) * m) + b - (top + box + box / 2)) <= 2 + Max(m, (far - near) / 2) / 128
  {
    var span, centre := size - 3 * box - top, size - box - box / 2;
    FarIsExact(centre, Slope(span, far, near), far);
    NearIsBounded(centre, span, far, near, box % 2);
  }

  /** A 16-bit store on the way to another does not change the result. */
  lemma StoreTwice(x: int, y: int)
    ensures Int16(x + Int16(y)) == Int16(x + y)
  {
    var q := (y + 0x8000) / 0x1_0000;
    assert Int16(y) == y - q * 0x1_0000;
    StoreShifted(x + y, q);
  }

  lemma StoreShifted(x: int, q: int)
    ensures Int16(x - q * 0x1_0000) == Int16(x)
  {
    var a, b := (x - q * 0x1_0000 + 0x8000) / 0x1_0000, (x + 0x8000) / 0x1_0000;
    assert a == b - q;
  }

  lemma ScreenStored(raw: int, m: int, b: int)
    ensures Screen(raw, m, Int16(b)) == Int16(Shr7(raw * m) + b)
  {
    StoreTwice(Shr7(raw * m), b);
  }

  /** The far reading as the panel stores and uses its calibration, in 16 bits: it is converted to its box centre if and
      only if the centre itself is a 16-bit number, even when slope or intercept wrapped. */
  lemma StoredFarIsExact(centre: int, m: int, far: int)
    ensures Screen(far / 2, m, Int16(Intercept(centre, m, far))) == centre <==> FitsInt16(centre)
  {
    ScreenStored(far / 2, m, Intercept(centre, m, far));
    FarIsExact(centre, m, far);
    Int16IsExact(centre);
  }

  /** The near reading in 16 bits: within its bound when slope and conversion fit. */
  lemma StoredNearIsBounded(size: int, box: nat, top: int, far: int, near: int)
    requires (far - near) / 2 > 0
    requires var m := Slope(size - 3 * box - top, far, near);
             0 <= m && FitsInt16(m) && FitsInt16(Shr7((near / 2) * m) + Intercept(size - box - box / 2, m, far))
    ensures var m := Int16(Slope(size - 3 * box - top, far, near));
            var b := Int16(Intercept(size - box - box / 2, m, far));
            Abs(Screen(near / 2, m, b) - (top + box + box / 2)) <= 2 + Max(m, (far - near) / 2) / 128
  {
    var m := Slope(size - 3 * box - top, far, near);
    Int16IsExact(m);
    var b := Intercept(size - box - box / 2, m, far);
    ScreenStored(near / 2, m, b);
    Int16IsExact(Shr7((near / 2) * m) + b);
    CalibrationError(size, box, top, far, near);
  }

  /** What a calibrated axis promises, whichever way it runs: slope and intercept are those of the readings, and the
      averaged readings are converted to their box centres. */
  predicate Calibrated(size: int, box: int, top: int, far: int, near: int, m: int, b: int)
    requires (far - near) / 2 != 0
  {
    && m == Int16(Slope(size - 3 * box - top, far, near)) && b == Int16(Intercept(size - box - box / 2, m, far))
    && FarOk(size - box - box / 2, far, m, b) && NearOk(size, box, top, far, near, m, b)
  }

  /** The far reading exactly, if and only if the centre is a 16-bit number. */
  predicate FarOk(centre: int, far: int, m: int, b: int) {
    Screen(far / 2, m, b) == centre <==> FitsInt16(centre)
  }

  /** The near reading within its bound, if slope and conversion are 16-bit numbers. */
  predicate NearOk(size: int, box: int, top: int, far: int, near: int, m: int, b: int)
    requires (far - near) / 2 != 0
  {
    var slope := Slope(size - 3 * box - top, far, near);
    FitsInt16(slope) && FitsInt16(Shr7((near / 2) * slope) + Intercept(size - box - box / 2, slope, far)) ==>
      Abs(Screen(near / 2, m, b) - (top + box + box / 2)) <= 2 + (Abs(slope) + Abs((far - near) / 2)) / 128
  }

  lemma AxisIsCalibrated(size: int, box: int, top: int, far: int, near: int, m: int, b: int)
    requires (far - near) / 2 != 0
    requires m == Int16(Slope(size - 3 * box - top, far, near)) && b == Int16(Intercept(size - box - box / 2, m, far))
    ensures Calibrated(size, box, top, far, near, m, b)
  {
    StoredFarIsExact(size - box - box / 2, m, far);
    StoredNearEitherWay(size, box, top, far, near);
  }

  lemma StoredNearEitherWay(size: int, box: int, top: int, far: int, near: int)
    requires (far - near) / 2 != 0
    ensures var m := Int16(Slope(size - 3 * box - top, far, near));
            NearOk(size, box, top, far, near, m, Int16(Intercept(size - box - box / 2, m, far)))
  {
    var m, centre := Slope(size - 3 * box - top, far, near), size - box - box / 2;
    Int16IsExact(m);
    var b := Intercept(centre, m, far);
    ScreenStored(near / 2, m, b);
    Int16IsExact(Shr7((near / 2) * m) + b);
    NearIsBoundedEitherWay(centre, size - 3 * box - top, far, near, box % 2);
  }

  // ----- limits and scaling, without naming how they are computed -----

  /** The limits of both routines: within them, the coordinate itself if it lies there, and otherwise the limit next to
      it. They agree when the lower limit is not above the upper. */
  lemma LimitsAreNearest(x: int, lo: int, hi: int, z: int)
    requires lo <= hi && lo <= z <= hi
    ensures lo <= Clamp(x, lo, hi) <= hi && Abs(Clamp(x, lo, hi) - x) <= Abs(z - x)
    ensures Bound(x, lo, hi) == Clamp(x, lo, hi)
  {
  }

  /** With the lower limit above the upper, `TP_Pos` ends at the upper and `TP_Encode` at the one the coordinate is
      beyond. */
  lemma CrossedLimits(x: int, lo: int, hi: int)
    requires hi < lo
    ensures Bound(x, lo, hi) == hi && Clamp(x, lo, hi) == if x < lo then lo else hi
  {
  }

  /** The two conversions as approximations of `128 * (screen - b) = raw * m`: a reading misses it by less than the
      slope, and a coordinate by less than 128, rounded down, as long as nothing wraps. */
  lemma ScalingIsLinear(x: int, raw: int, m: int, b: int)
    requires m != 0
    ensures InRange(x, m, b) ==> Abs(Raw(x, m, b) * m - 128 * (x - b)) < Abs(m)
    ensures FitsInt16(Shr7(raw * m) + b) ==> 0 <= raw * m - 128 * (Screen(raw, m, b) - b) < 128
  {
    RawFits(x, m, b);
    TruncDivBounds((x - b) * 128, m);
    Int16IsExact(Shr7(raw * m) + b);
  }
}
