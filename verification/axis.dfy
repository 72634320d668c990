/**
  The axis renderer's arithmetic: the choice of the axis unit (the logical
  distance between graduations) from the scale, and the graduation ticks and
  labels drawn along one axis.
 */
module Axes {
  import opened Doubles
  import Intrinsics

  /** The minimum canvas distance between graduations. */
  const MinSpacing: real := 50.0

  /** The smallest exponent of the unit, so the unit is never below 1/8. */
  const MinExponent: int := -3

  /** 2 raised to an integer power. */
  function Pow2(e: int): (r: real)
    ensures r > 0.0
    decreases if e < 0 then -e else e
  {
    if e == 0 then 1.0
    else if e > 0 then 2.0 * Pow2(e - 1)
    else Pow2(e + 1) / 2.0
  }

  lemma {:induction false} Pow2Step(e: int)
    ensures Pow2(e + 1) == 2.0 * Pow2(e)
    decreases if e < 0 then -e else e
  {
    if e < -1 {
      Pow2Step(e + 1);
    }
  }

  lemma {:induction false} Pow2Monotone(a: int, b: int)
    requires a <= b
    ensures Pow2(a) <= Pow2(b)
    decreases b - a
  {
    if a < b {
      Pow2Monotone(a + 1, b);
      Pow2Step(a);
    }
  }

  /** The floor of the base-2 logarithm of a positive real. */
  function FloorLog2(r: real): (k: int)
    requires r > 0.0
    ensures Pow2(k) <= r < Pow2(k + 1)
    decreases if r < 1.0 then 1 else 0, if r < 1.0 then (1.0 / r).Floor else r.Floor
  {
    if r >= 2.0 then
      var k := 1 + FloorLog2(r / 2.0);
      Pow2Step(k - 1);
      Pow2Step(k);
      k
    else if r < 1.0 then
      var k := FloorLog2(r * 2.0) - 1;
      Pow2Step(k);
      Pow2Step(k + 1);
      k
    else
      Pow2Step(0);
      0
  }

  /** The exponent bracketing a positive real is unique. */
  lemma {:induction false} FloorLog2Unique(r: real, k: int)
    requires r > 0.0 && Pow2(k) <= r < Pow2(k + 1)
    ensures FloorLog2(r) == k
  {
    var j := FloorLog2(r);
    if j < k {
      Pow2Monotone(j + 1, k);
    } else if k < j {
      Pow2Monotone(k + 1, j);
    }
  }

  /** The exponent of the unit for a positive finite scale. */
  function Exponent(scale: real): (e: int)
    requires scale > 0.0
    ensures e >= MinExponent
  {
    var e := -FloorLog2(scale / MinSpacing);
    if e < MinExponent then MinExponent else e
  }

  /**
    `AxisUnitFromScale`: the unit is a power of two chosen so that one unit
    spans at least 50 canvas units. A zero scale gives an infinite unit and a
    negative or NaN scale a NaN unit (the logarithm and the maximum propagate
    them); an infinite scale gives the smallest unit.
   */
  function AxisUnitFromScale(scale: Double): (r: Double)
    ensures scale.Finite? && scale.v > 0.0 ==> r.Finite? && r.v >= 0.125
    ensures scale == Finite(0.0) ==> r == PosInf
    ensures scale.NaN? || scale.NegInf? || (scale.Finite? && scale.v < 0.0) ==> r.NaN?
    ensures scale.PosInf? ==> r == Finite(0.125)
  {
    match scale
    case Finite(s) =>
      if s > 0.0 then
        Pow2Monotone(MinExponent, Exponent(s));
        Finite(Pow2(Exponent(s)))
      else if s == 0.0 then PosInf
      else NaN
    case PosInf => Finite(Pow2(MinExponent))
    case _ => NaN
  }

  /**
    The canvas spacing of graduations is at least 50, and below 100 exactly
    when the scale is below 800 (beyond that the unit is clamped at 1/8).
   */
  lemma SpacingRange(s: real)
    requires s > 0.0
    ensures AxisUnitFromScale(Finite(s)).Finite?
    ensures s * AxisUnitFromScale(Finite(s)).v >= MinSpacing
    ensures s * AxisUnitFromScale(Finite(s)).v < 2.0 * MinSpacing <==> s < 800.0
  {
    var k := FloorLog2(s / MinSpacing);
    if k <= 3 {
      UnclampedUnit(s, k);
      SpacingFromBracket(s, Pow2(k), AxisUnitFromScale(Finite(s)).v);
    } else {
      ClampedSpacing(s, k);
    }
  }

  lemma Pow2Sixteen()
    ensures Pow2(4) == 16.0
  {
    assert Pow2(1) == 2.0;
  }

  /** Unclamped, the unit is the inverse of the power of two bracketing s / 50, which is at most 8. */
  lemma UnclampedUnit(s: real, k: int)
    requires s > 0.0 && k == FloorLog2(s / MinSpacing) && k <= 3
    ensures AxisUnitFromScale(Finite(s)) == Finite(1.0 / Pow2(k))
    ensures Pow2(k) <= s / MinSpacing < 2.0 * Pow2(k)
    ensures Pow2(k) <= 8.0
  {
    Pow2Negated(k);
    Pow2Step(k);
    Pow2Monotone(k, 3);
    assert Pow2(3) == 8.0;
  }

  /** With p <= s / 50 < 2p and u = 1 / p, the spacing s u lies in [50, 100). */
  lemma SpacingFromBracket(s: real, p: real, u: real)
    requires p > 0.0 && u == 1.0 / p && p <= s / MinSpacing < 2.0 * p
    ensures MinSpacing <= s * u < 2.0 * MinSpacing
    ensures p <= 8.0 ==> s < 800.0
  {
    assert s * u == s / p;
    assert MinSpacing * p <= s < 2.0 * MinSpacing * p;
  }

  /** Clamped, the unit is 1/8 and spans at least 100 canvas units. */
  lemma ClampedSpacing(s: real, k: int)
    requires s > 0.0 && k == FloorLog2(s / MinSpacing) && k >= 4
    ensures AxisUnitFromScale(Finite(s)) == Finite(0.125)
    ensures s * 0.125 >= 2.0 * MinSpacing && s >= 800.0
  {
    assert Pow2(-1) == 0.5 && Pow2(-2) == 0.25 && Pow2(-3) == 0.125;
    Pow2Monotone(4, k);
    Pow2Sixteen();
    var r := s / MinSpacing;
    assert r >= 16.0;
    assert s == r * MinSpacing;
  }

  lemma {:induction false} Pow2Negated(k: int)
    ensures Pow2(-k) == 1.0 / Pow2(k)
    decreases if k < 0 then -k else k
  {
    if k > 0 {
      Pow2Negated(k - 1);
      Pow2Step(k - 1);
      Pow2Step(-k);
    } else if k < 0 {
      Pow2Negated(k + 1);
      Pow2Step(k);
      Pow2Step(-k - 1);
    }
  }

  /** Doubling the scale halves the unit, as long as the unit is not clamped. */
  lemma DoublingScaleHalvesUnit(s: real)
    requires s > 0.0 && 2.0 * s < 800.0
    ensures AxisUnitFromScale(Finite(2.0 * s)).v * 2.0 == AxisUnitFromScale(Finite(s)).v
  {
    var k := FloorLog2(s / MinSpacing);
    Pow2Step(k);
    Pow2Step(k + 1);
    FloorLog2Unique(2.0 * s / MinSpacing, k + 1);
    Pow2Step(-k - 1);
    SpacingRange(2.0 * s);
    Pow2Sixteen();
    if k + 1 >= 4 {
      Pow2Monotone(4, k + 1);
      assert false;
    }
  }

  /**
    The graduation indices from `lo` to `hi` inclusive, skipping the origin,
    in increasing order.
   */
  function TickIndices(lo: int, hi: int): (r: seq<int>)
    ensures forall i :: i in r <==> lo <= i <= hi && i != 0
    ensures forall a, b :: 0 <= a < b < |r| ==> r[a] < r[b]
    decreases hi - lo
  {
    if hi < lo then []
    else if hi == 0 then TickIndices(lo, hi - 1)
    else
      var r := TickIndices(lo, hi - 1);
      assert forall a :: 0 <= a < |r| ==> r[a] in r;
      r + [hi]
  }

  /** A graduation: its index, its canvas offset along the axis, and the logical value it is labelled with. */
  datatype Tick = Tick(index: int, offset: real, value: real)

  function TickAt(i: int, spacing: real, unit: real): Tick {
    Tick(i, i as real * spacing, i as real * -unit)
  }

  /** The graduations of one axis, by the reference enumeration of their indices. */
  function AxisTicks(scale: real, unit: real, minY: real, maxY: real): (ticks: seq<Tick>)
    requires unit * scale != 0.0
    ensures var lo, hi := (minY / (unit * scale)).Floor, Intrinsics.CeilReal(maxY / (unit * scale));
      forall i :: i in IndicesOf(ticks) <==> lo <= i <= hi && i != 0
    ensures forall a, b :: 0 <= a < b < |ticks| ==> ticks[a].index < ticks[b].index
    ensures forall k :: 0 <= k < |ticks| ==>
      ticks[k].offset == ticks[k].index as real * (unit * scale) && ticks[k].value == -(ticks[k].index as real * unit)
  {
    var spacing := unit * scale;
    var indices := TickIndices((minY / spacing).Floor, Intrinsics.CeilReal(maxY / spacing));
    var ticks := seq(|indices|, k requires 0 <= k < |indices| => TickAt(indices[k], spacing, unit));
    assert IndicesOf(ticks) == indices;
    ticks
  }

  /** The indices of a list of graduations, in order. */
  function IndicesOf(ticks: seq<Tick>): seq<int> {
    seq(|ticks|, k requires 0 <= k < |ticks| => ticks[k].index)
  }

  /**
    `DrawAxis`: a tick and a label at every multiple of the spacing from
    floor(minY / spacing) to ceiling(maxY / spacing), except at the origin.
    The label is the logical coordinate of the tick, negated because canvas y
    grows downwards.
   */
  method DrawAxis(scale: real, unit: real, minY: real, maxY: real) returns (ticks: seq<Tick>)
    requires unit * scale != 0.0
    ensures ticks == AxisTicks(scale, unit, minY, maxY)
    ensures forall k :: 0 <= k < |ticks| ==> ticks[k].value * scale == -ticks[k].offset
  {
    var spacing := unit * scale;
    var lo, hi := (minY / spacing).Floor, Intrinsics.CeilReal(maxY / spacing);
    ticks := [];
    ghost var indices: seq<int> := [];
    var i := lo;
    while i <= hi
      invariant lo <= i && (lo <= hi ==> i <= hi + 1) && (hi < lo ==> i == lo)
      invariant indices == TickIndices(lo, i - 1)
      invariant |ticks| == |indices|
      invariant forall k :: 0 <= k < |ticks| ==> ticks[k] == TickAt(indices[k], spacing, unit)
      decreases hi - i
    {
      if i != 0 {
        ticks := ticks + [TickAt(i, spacing, unit)];
        indices := indices + [i];
      }
      i := i + 1;
    }
    if hi < lo {
      assert TickIndices(lo, hi) == [] && TickIndices(lo, i - 1) == [];
    }
    TicksFromIndices(scale, unit, minY, maxY, ticks);
  }

  /** Ticks built one per reference index are the reference graduations, and each label reads back its offset. */
  lemma TicksFromIndices(scale: real, unit: real, minY: real, maxY: real, ticks: seq<Tick>)
    requires unit * scale != 0.0
    requires var indices := TickIndices((minY / (unit * scale)).Floor, Intrinsics.CeilReal(maxY / (unit * scale)));
      |ticks| == |indices| && forall k :: 0 <= k < |ticks| ==> ticks[k] == TickAt(indices[k], unit * scale, unit)
    ensures ticks == AxisTicks(scale, unit, minY, maxY)
    ensures forall k :: 0 <= k < |ticks| ==> ticks[k].value * scale == -ticks[k].offset
  {
    var spacing := unit * scale;
    var indices := TickIndices((minY / spacing).Floor, Intrinsics.CeilReal(maxY / spacing));
    assert ticks == seq(|indices|, k requires 0 <= k < |indices| => TickAt(indices[k], spacing, unit));
    forall k | 0 <= k < |ticks|
      ensures ticks[k].value * scale == -ticks[k].offset
    {
      var x := indices[k] as real;
      assert (x * -unit) * scale == -(x * spacing);
    }
  }

  /**
    `DrawAxes`: both axes share the unit chosen from the scale. The y axis runs
    from -originY to height - originY and the x axis (drawn rotated) from
    originX - width to originX, in canvas units relative to the origin. When
    the scale is not a positive finite number the spacing is NaN or infinite
    and no graduation is drawn.
   */
  method DrawAxes(scale: Double, originX: real, originY: real, width: real, height: real)
    returns (yTicks: seq<Tick>, xTicks: seq<Tick>)
    ensures !(scale.Finite? && scale.v > 0.0) ==> yTicks == [] && xTicks == []
    ensures scale.Finite? && scale.v > 0.0 ==>
      && AxisUnitFromScale(scale).Finite?
      && AxisUnitFromScale(scale).v * scale.v > 0.0
      && yTicks == AxisTicks(scale.v, AxisUnitFromScale(scale).v, -originY, height - originY)
      && xTicks == AxisTicks(scale.v, AxisUnitFromScale(scale).v, originX - width, originX)
  {
    if scale.Finite? && scale.v > 0.0 {
      var unit := AxisUnitFromScale(scale).v;
      MultiplyStrict(0.0, unit, scale.v);
      yTicks := DrawAxis(scale.v, unit, -originY, height - originY);
      xTicks := DrawAxis(scale.v, unit, originX - width, originX);
    } else {
      yTicks, xTicks := [], [];
    }
  }

  /**
    The ticks cover the visible range: every nonzero multiple of a positive
    spacing between minY and maxY is a tick, and every tick lies less than one
    spacing outside that range.
   */
  lemma TicksCoverRange(spacing: real, minY: real, maxY: real, i: int)
    requires spacing > 0.0
    ensures i != 0 && minY <= i as real * spacing <= maxY ==>
      i in TickIndices((minY / spacing).Floor, Intrinsics.CeilReal(maxY / spacing))
    ensures i in TickIndices((minY / spacing).Floor, Intrinsics.CeilReal(maxY / spacing)) ==>
      minY - spacing < i as real * spacing < maxY + spacing
  {
    var lo, hi := (minY / spacing).Floor, Intrinsics.CeilReal(maxY / spacing);
    if i != 0 && minY <= i as real * spacing <= maxY {
      InRangeIsTick(spacing, minY, maxY, i);
    }
    if lo <= i <= hi {
      TickIsNearRange(spacing, minY, maxY, i);
    }
  }

  lemma InRangeIsTick(spacing: real, minY: real, maxY: real, i: int)
    requires spacing > 0.0 && minY <= i as real * spacing <= maxY
    ensures (minY / spacing).Floor <= i <= Intrinsics.CeilReal(maxY / spacing)
  {
    var x := i as real * spacing;
    assert x / spacing == i as real;
    DivideMonotone(minY, x, spacing);
    DivideMonotone(x, maxY, spacing);
  }

  lemma TickIsNearRange(spacing: real, minY: real, maxY: real, i: int)
    requires spacing > 0.0 && (minY / spacing).Floor <= i <= Intrinsics.CeilReal(maxY / spacing)
    ensures minY - spacing < i as real * spacing < maxY + spacing
  {
    MultiplyStrict(minY / spacing - 1.0, i as real, spacing);
    assert (minY / spacing - 1.0) * spacing == minY - spacing;
    MultiplyStrict(i as real, maxY / spacing + 1.0, spacing);
    assert (maxY / spacing + 1.0) * spacing == maxY + spacing;
  }

  lemma DivideMonotone(a: real, b: real, c: real)
    requires a <= b && c > 0.0
    ensures a / c <= b / c
  {
    assert b / c - a / c == (b - a) / c;
  }

  lemma MultiplyStrict(a: real, b: real, c: real)
    requires a < b && c > 0.0
    ensures a * c < b * c
  {
    assert b * c - a * c == (b - a) * c;
  }
}
