/**
  The curve builder: samples a function of one variable at every whole canvas
  x from 0 up to the width and folds the samples into open polylines through
  an Empty / Pending / InFigure state machine.
 */
module Curves {
  import opened Doubles

  /** A canvas point. Its x is a sample position; its y may be infinite but never NaN. */
  datatype Point = Point(x: real, y: Double)

  /**
    The builder's fixed inputs: the function, the scale (canvas units per
    logical unit) and the canvas position of the logical origin. `refine`
    stands for the recursive call of `IsJoined` on a half segment and its
    squared length; it is consulted only after both base cases have failed
    and both halves have been found shorter than the whole.
   */
  datatype Builder = Builder(
    fn: Double -> Double,
    scale: real,
    originX: real,
    originY: real,
    refine: (Point, Point, Double) -> bool)

  /** `GetY`: canvas x to logical x, apply the function, logical y back to canvas y. */
  function GetY(b: Builder, x: real): Double {
    var inverseScale := Div(Finite(1.0), Finite(b.scale));
    var logical := Mul(Sub(Finite(x), Finite(b.originX)), inverseScale);
    Add(Mul(b.fn(logical), Finite(b.scale)), Finite(b.originY))
  }

  function DistanceSquared(p: Point, q: Point): Double {
    var dx := Finite(p.x - q.x);
    var dy := Sub(p.y, q.y);
    Add(Mul(dx, dx), Mul(dy, dy))
  }

  /**
    `IsJoined` with a known squared distance `d`: a segment no longer than one
    canvas unit is joined; when the curve is absent at the midpoint it is not;
    otherwise both halves must be shorter than the whole and joined.
   */
  predicate Joined(b: Builder, p: Point, q: Point, d: Double) {
    if Le(d, Finite(1.0)) then true
    else
      var mx := (p.x + q.x) * 0.5;
      var my := GetY(b, mx);
      if my.NaN? then false
      else
        var mid := Point(mx, my);
        var d0 := DistanceSquared(p, mid);
        var d1 := DistanceSquared(mid, q);
        Lt(d0, d) && Lt(d1, d) && b.refine(p, mid, d0) && b.refine(q, mid, d1)
  }

  /** Whether two successive samples belong to the same figure. */
  predicate IsJoined(b: Builder, p: Point, q: Point) {
    Joined(b, p, q, DistanceSquared(p, q))
  }

  /** Samples within one canvas unit of each other are joined. */
  lemma CloseSamplesJoined(b: Builder, p: Point, q: Point)
    requires p.y.Finite? && q.y.Finite?
    requires (p.x - q.x) * (p.x - q.x) + (p.y.v - q.y.v) * (p.y.v - q.y.v) <= 1.0
    ensures IsJoined(b, p, q)
  {
    assert DistanceSquared(p, q) == Finite((p.x - q.x) * (p.x - q.x) + (p.y.v - q.y.v) * (p.y.v - q.y.v));
  }

  /** Samples farther apart than one canvas unit, with no curve at their midpoint, are not joined. */
  lemma GapSeparatesSamples(b: Builder, p: Point, q: Point)
    requires !Le(DistanceSquared(p, q), Finite(1.0)) && GetY(b, (p.x + q.x) * 0.5).NaN?
    ensures !IsJoined(b, p, q)
  {
  }

  /**
    Two samples at the same infinity are never joined: their squared distance
    is NaN, and no half is shorter than NaN.
   */
  lemma InfiniteSamplesNotJoined(b: Builder, p: Point, q: Point)
    requires (p.y.PosInf? && q.y.PosInf?) || (p.y.NegInf? && q.y.NegInf?)
    ensures !IsJoined(b, p, q)
  {
    assert Sub(p.y, q.y).NaN?;
    assert DistanceSquared(p, q).NaN?;
  }

  datatype State = Empty | Pending | InFigure

  /**
    The mutable part: the state, the last point added, the figures already
    closed, and the points of the open figure (empty unless InFigure).
   */
  datatype Trace = Trace(state: State, last: Point, figures: seq<seq<Point>>, open: seq<Point>)

  const Start: Trace := Trace(Empty, Point(0.0, NaN), [], [])

  /** `EndFigure`: an open figure is closed and emitted; in every case the state becomes Empty. */
  function EndFigure(t: Trace): (r: Trace)
    ensures r.state == Empty && r.open == [] && r.last == t.last
    ensures t.state == InFigure ==> r.figures == t.figures + [t.open]
    ensures t.state != InFigure ==> r.figures == t.figures
  {
    if t.state == InFigure then Trace(Empty, t.last, t.figures + [t.open], [])
    else Trace(Empty, t.last, t.figures, [])
  }

  /**
    `AddPoint`: a point not joined to the last one ends the figure first. The
    first point is held pending; the second begins a figure at the pending
    point; later points extend the figure.
   */
  function AddPoint(b: Builder, t: Trace, p: Point): (r: Trace)
    ensures r.last == p && r.state != Empty
    ensures t.state == Empty ==> r.state == Pending && r.figures == t.figures
    ensures t.state != Empty && !IsJoined(b, t.last, p) ==> r.state == Pending && r.figures == EndFigure(t).figures
    ensures t.state == Pending && IsJoined(b, t.last, p) ==>
      r.state == InFigure && r.open == [t.last, p] && r.figures == t.figures
    ensures t.state == InFigure && IsJoined(b, t.last, p) ==>
      r.state == InFigure && r.open == t.open + [p] && r.figures == t.figures
  {
    var u := if t.state != Empty && !IsJoined(b, t.last, p) then EndFigure(t) else t;
    match u.state
    case Empty => Trace(Pending, p, u.figures, u.open)
    case Pending => Trace(InFigure, p, u.figures, [u.last, p])
    case InFigure => Trace(InFigure, p, u.figures, u.open + [p])
  }

  /** The sample taken at whole canvas position `n`, when the curve is present there. */
  predicate IsSample(b: Builder, p: Point, width: real) {
    && 0.0 <= p.x < width
    && p.x == p.x.Floor as real
    && p.y == GetY(b, p.x)
    && !p.y.NaN?
  }

  /**
    A drawn polyline: at least two samples, each one canvas unit to the right
    of the previous, and each joined to the previous.
   */
  predicate Figure(b: Builder, f: seq<Point>, width: real) {
    && |f| >= 2
    && (forall k :: 0 <= k < |f| ==> IsSample(b, f[k], width))
    && (forall k :: 0 <= k < |f| - 1 ==> f[k + 1].x == f[k].x + 1.0 && IsJoined(b, f[k], f[k + 1]))
  }

  /** Within a figure, x strictly increases. */
  lemma {:induction false} FigureIncreasing(b: Builder, f: seq<Point>, width: real, j: nat, k: nat)
    requires Figure(b, f, width) && j < k < |f|
    ensures f[j].x < f[k].x
  {
    if j + 1 < k {
      FigureIncreasing(b, f, width, j, k - 1);
    }
  }

  /**
    What the builder keeps while sampling up to (not including) `next`: closed
    figures are figures, and the open figure or pending point ends with the
    previous sample.
   */
  predicate Invariant(b: Builder, t: Trace, next: real, width: real) {
    && (forall k :: 0 <= k < |t.figures| ==> Figure(b, t.figures[k], width))
    && (t.state == Empty ==> t.open == [])
    && (t.state == Pending ==> t.open == [] && IsSample(b, t.last, width) && t.last.x + 1.0 == next)
    && (t.state == InFigure ==>
          Figure(b, t.open, width) && t.last == t.open[|t.open| - 1] && t.last.x + 1.0 == next)
  }

  /** Adding the sample at `x` keeps the invariant, one step further on. */
  lemma AddPointKeepsInvariant(b: Builder, t: Trace, p: Point, width: real)
    requires Invariant(b, t, p.x, width) && IsSample(b, p, width)
    ensures Invariant(b, AddPoint(b, t, p), p.x + 1.0, width)
  {
    if t.state == Empty || !IsJoined(b, t.last, p) {
      var u := EndFigure(t);
      assert forall k :: 0 <= k < |u.figures| ==> Figure(b, u.figures[k], width);
    } else if t.state == Pending {
      BeginKeepsFigure(b, t.last, p, width);
    } else {
      ExtendKeepsFigure(b, t.open, p, width);
    }
  }

  /** Two joined consecutive samples make a figure. */
  lemma BeginKeepsFigure(b: Builder, p: Point, q: Point, width: real)
    requires IsSample(b, p, width) && IsSample(b, q, width)
    requires q.x == p.x + 1.0 && IsJoined(b, p, q)
    ensures Figure(b, [p, q], width)
  {
  }

  /** A figure extended by a joined next sample is a figure. */
  lemma ExtendKeepsFigure(b: Builder, f: seq<Point>, q: Point, width: real)
    requires Figure(b, f, width) && IsSample(b, q, width)
    requires q.x == f[|f| - 1].x + 1.0 && IsJoined(b, f[|f| - 1], q)
    ensures Figure(b, f + [q], width)
  {
    var g := f + [q];
    assert forall k :: 0 <= k < |f| ==> g[k] == f[k];
  }

  /** The sample at whole canvas position `n`. */
  function Sample(b: Builder, n: nat): Point {
    Point(n as real, GetY(b, n as real))
  }

  /** The curve is present at `n` and at `n + 1`, and the two samples are joined. */
  predicate JoinedAt(b: Builder, n: nat) {
    && !Sample(b, n).y.NaN?
    && !Sample(b, n + 1).y.NaN?
    && IsJoined(b, Sample(b, n), Sample(b, n + 1))
  }

  /** `p` is immediately followed by `q` in some figure of `figures`. */
  predicate InFigures(figures: seq<seq<Point>>, p: Point, q: Point) {
    exists k, j :: 0 <= k < |figures| && 0 <= j < |figures[k]| - 1 && figures[k][j] == p && figures[k][j + 1] == q
  }

  /** `p` is immediately followed by `q` in the polyline `f`. */
  predicate InLine(f: seq<Point>, p: Point, q: Point) {
    exists j :: 0 <= j < |f| - 1 && f[j] == p && f[j + 1] == q
  }

  /**
    Every joined pair of samples before `next` has been drawn, and a present
    sample at `next - 1` is the last point of a pending or open figure.
   */
  predicate Covered(b: Builder, t: Trace, next: nat) {
    && (forall n: nat :: n + 1 < next && JoinedAt(b, n) ==>
          InFigures(t.figures, Sample(b, n), Sample(b, n + 1)) || InLine(t.open, Sample(b, n), Sample(b, n + 1)))
    && (0 < next && !Sample(b, next - 1).y.NaN? ==> t.state != Empty && t.last == Sample(b, next - 1))
    && (t.state != InFigure ==> t.open == [])
    && (t.state == InFigure ==> |t.open| > 0 && t.last == t.open[|t.open| - 1])
  }

  lemma {:induction false} InFiguresGrows(figures: seq<seq<Point>>, f: seq<Point>, p: Point, q: Point)
    requires InFigures(figures, p, q) || InLine(f, p, q)
    ensures InFigures(figures + [f], p, q)
  {
    var all := figures + [f];
    if InFigures(figures, p, q) {
      var k, j :| 0 <= k < |figures| && 0 <= j < |figures[k]| - 1 && figures[k][j] == p && figures[k][j + 1] == q;
      assert all[k] == figures[k];
    } else {
      var j :| 0 <= j < |f| - 1 && f[j] == p && f[j + 1] == q;
      assert all[|figures|] == f;
    }
  }

  lemma {:induction false} InLineGrows(f: seq<Point>, r: Point, p: Point, q: Point)
    requires InLine(f, p, q) || (|f| > 0 && f[|f| - 1] == p && r == q)
    ensures InLine(f + [r], p, q)
  {
    var g := f + [r];
    if InLine(f, p, q) {
      var j :| 0 <= j < |f| - 1 && f[j] == p && f[j + 1] == q;
      assert g[j] == f[j] && g[j + 1] == f[j + 1];
    } else {
      assert g[|f| - 1] == p && g[|f|] == q;
    }
  }

  /** Ending the figure moves everything drawn into the closed figures. */
  lemma {:induction false} EndFigureKeepsDrawn(t: Trace, p: Point, q: Point)
    requires t.state != InFigure ==> t.open == []
    requires InFigures(t.figures, p, q) || InLine(t.open, p, q)
    ensures InFigures(EndFigure(t).figures, p, q)
  {
    if t.state == InFigure {
      InFiguresGrows(t.figures, t.open, p, q);
    } else {
      assert !InLine(t.open, p, q);
    }
  }

  /** An absent sample at `next` ends the figure and keeps coverage. */
  lemma {:induction false} AbsentSampleKeepsCoverage(b: Builder, t: Trace, next: nat)
    requires Covered(b, t, next) && Sample(b, next).y.NaN?
    ensures Covered(b, EndFigure(t), next + 1)
  {
    var r := EndFigure(t);
    forall n: nat | n + 1 < next + 1 && JoinedAt(b, n)
      ensures InFigures(r.figures, Sample(b, n), Sample(b, n + 1))
    {
      EndFigureKeepsDrawn(t, Sample(b, n), Sample(b, n + 1));
    }
  }

  /** A present sample at `next` is added and keeps coverage, drawing the pair ending at it when joined. */
  lemma {:induction false} PresentSampleKeepsCoverage(b: Builder, t: Trace, next: nat)
    requires Covered(b, t, next) && !Sample(b, next).y.NaN?
    ensures Covered(b, AddPoint(b, t, Sample(b, next)), next + 1)
  {
    var p := Sample(b, next);
    var r := AddPoint(b, t, p);
    var split := t.state != Empty && !IsJoined(b, t.last, p);
    forall n: nat | n + 1 < next + 1 && JoinedAt(b, n)
      ensures InFigures(r.figures, Sample(b, n), Sample(b, n + 1)) || InLine(r.open, Sample(b, n), Sample(b, n + 1))
    {
      var x, y := Sample(b, n), Sample(b, n + 1);
      if n + 1 < next {
        assert InFigures(t.figures, x, y) || InLine(t.open, x, y);
        if split {
          EndFigureKeepsDrawn(t, x, y);
        } else if t.state == Pending {
          assert t.open == [];
          assert !InLine(t.open, x, y);
        } else if t.state == InFigure {
          if !InFigures(t.figures, x, y) {
            InLineGrows(t.open, p, x, y);
          }
        }
      } else {
        assert n == next - 1 && y == p;
        assert t.state != Empty && t.last == x && !split;
        if t.state == Pending {
          assert r.open == [x, y] && r.open[0] == x && r.open[1] == y;
        } else {
          InLineGrows(t.open, p, x, y);
        }
      }
    }
  }

  /**
    `CreateGeometry`: sample x = 0, 1, 2, ... below the width, add each present
    sample, end the figure at each absent one, and end the last figure. The
    emitted figures are polylines of consecutive, joined samples, and every
    two consecutive joined samples below the width are drawn as a segment.
   */
  method CreateGeometry(b: Builder, width: real) returns (figures: seq<seq<Point>>, final: State)
    ensures final == Empty
    ensures forall k :: 0 <= k < |figures| ==> Figure(b, figures[k], width)
    ensures forall k, j, i :: 0 <= k < |figures| && 0 <= j < i < |figures[k]| ==> figures[k][j].x < figures[k][i].x
    ensures forall n: nat :: (n + 1) as real < width && JoinedAt(b, n) ==> InFigures(figures, Sample(b, n), Sample(b, n + 1))
  {
    var t := Start;
    var n: nat := 0;
    while (n as real) < width
      invariant Invariant(b, t, n as real, width)
      invariant Covered(b, t, n)
      invariant 0 < n ==> (n - 1) as real < width
      decreases width - n as real
    {
      var x := n as real;
      var y := GetY(b, x);
      if !y.NaN? {
        AddPointKeepsInvariant(b, t, Point(x, y), width);
        PresentSampleKeepsCoverage(b, t, n);
        t := AddPoint(b, t, Point(x, y));
      } else {
        AbsentSampleKeepsCoverage(b, t, n);
        t := EndFigure(t);
      }
      n := n + 1;
    }
    var closed := EndFigure(t);
    forall m: nat | (m + 1) as real < width && JoinedAt(b, m)
      ensures InFigures(closed.figures, Sample(b, m), Sample(b, m + 1))
    {
      EndFigureKeepsDrawn(t, Sample(b, m), Sample(b, m + 1));
    }
    figures, final := closed.figures, closed.state;
    forall k, j, i | 0 <= k < |figures| && 0 <= j < i < |figures[k]|
      ensures figures[k][j].x < figures[k][i].x
    {
      FigureIncreasing(b, figures[k], width, j, i);
    }
  }

  /** Over the reals, with a present function value, `GetY` is f((x - ox) / scale) * scale + oy. */
  lemma GetYOverReals(b: Builder, x: real, v: real)
    requires b.scale != 0.0
    requires b.fn(Finite((x - b.originX) / b.scale)) == Finite(v)
    ensures GetY(b, x) == Finite(v * b.scale + b.originY)
  {
    var inverseScale := Div(Finite(1.0), Finite(b.scale));
    assert inverseScale == Finite(1.0 / b.scale);
    assert (x - b.originX) * (1.0 / b.scale) == (x - b.originX) / b.scale;
    assert Sub(Finite(x), Finite(b.originX)) == Finite(x - b.originX);
    assert Mul(Sub(Finite(x), Finite(b.originX)), inverseScale) == Finite((x - b.originX) / b.scale);
  }


  /**
    With a non-zero scale, the curve is absent at a canvas x exactly where the
    function has no value at the logical x; infinities stay present.
   */
  lemma GetYAbsentWhereFunctionIs(b: Builder, x: real)
    requires b.scale != 0.0
    ensures GetY(b, x).NaN? <==> b.fn(Finite((x - b.originX) / b.scale)).NaN?
  {
    var inverseScale := Div(Finite(1.0), Finite(b.scale));
    assert inverseScale == Finite(1.0 / b.scale);
    assert (x - b.originX) * (1.0 / b.scale) == (x - b.originX) / b.scale;
    assert Sub(Finite(x), Finite(b.originX)) == Finite(x - b.originX);
    assert Mul(Sub(Finite(x), Finite(b.originX)), inverseScale) == Finite((x - b.originX) / b.scale);
  }
}
