/**
 * The axis decoration of plot_z_plane that is plain arithmetic: the end
 * points of the two dotted guide lines and the tick positions shared by both
 * axes. Floating-point numbers are modelled as exact reals; every tick is
 * a multiple of one half, which a float holds exactly.
 */
module Axes {

  // ---------------------------------------------------------------------------
  // Guide lines
  // ---------------------------------------------------------------------------

  datatype Point = Point(x: real, y: real)
  datatype Segment = Segment(from: Point, to: Point)

  /** The dotted horizontal line at y = 0, from -(sf + 2) to sf + 2. */
  function HorizontalGuide(sf: real): (g: Segment)
    ensures g.from.y == 0.0 && g.to.y == 0.0
    ensures g.from.x == -g.to.x && g.to.x - g.from.x == 2.0 * sf + 4.0
  {
    Segment(Point(-sf - 2.0, 0.0), Point(sf + 2.0, 0.0))
  }

  /** The dotted vertical line at x = 0, over the same range as the horizontal one. */
  function VerticalGuide(sf: real): (g: Segment)
    ensures g.from.x == 0.0 && g.to.x == 0.0
    ensures g.from.y == -g.to.y && g.to.y - g.from.y == 2.0 * sf + 4.0
  {
    Segment(Point(0.0, -sf - 2.0), Point(0.0, sf + 2.0))
  }

  // ---------------------------------------------------------------------------
  // Tick positions
  // ---------------------------------------------------------------------------

  /** Python's int() on a float: truncation toward zero. */
  function Trunc(x: real): (n: int)
    ensures 0.0 <= x ==> 0 <= n && n as real <= x < n as real + 1.0
    ensures x < 0.0 ==> n <= 0 && n as real - 1.0 < x <= n as real
  {
    if x >= 0.0 then x.Floor else Ceil(x)
  }

  /** The least integer not below x. */
  function Ceil(x: real): (n: int)
    ensures n as real - 1.0 < x <= n as real
  {
    -((-x).Floor)
  }

  /**
   * np.arange(start, stop, 0.5) in exact arithmetic: ceil((stop - start) / 0.5)
   * values, start, start + 0.5, ..., all strictly below the excluded stop.
   */
  function HalfStepRange(start: real, stop: real): (r: seq<real>)
    ensures forall i :: 0 <= i < |r| ==> r[i] == start + (i as real) / 2.0
    ensures forall i :: 0 <= i < |r| ==> r[i] < stop
    ensures start + (|r| as real) / 2.0 >= stop
  {
    var n := Ceil(2.0 * (stop - start));
    if n <= 0 then [] else seq(n, i requires 0 <= i < n => start + (i as real) / 2.0)
  }

  /** The tick positions used on both axes. */
  function Ticks(sf: real): (t: seq<real>)
    ensures 0.0 in t && 0.5 in t
  {
    var s := Trunc(sf) as real;
    var t := HalfStepRange(-1.0 - s, 0.0) + [0.0, 0.5] + HalfStepRange(1.0, 1.5 + s);
    assert t[|HalfStepRange(-1.0 - s, 0.0)|] == 0.0;
    assert t[|HalfStepRange(-1.0 - s, 0.0)| + 1] == 0.5;
    t
  }

  /** A range whose stop lies an exact number n of half steps above its start has n values. */
  lemma HalfStepRangeLength(start: real, stop: real, n: nat)
    requires stop == start + (n as real) / 2.0
    ensures |HalfStepRange(start, stop)| == n
  {
    assert 2.0 * (stop - start) == n as real;
    assert Ceil(n as real) == n;
  }

  /**
   * For sf > -1 (so that int(sf) = s >= 0) the ticks are the 4s + 5 half
   * steps from -(1 + s) to 1 + s.
   */
  lemma TicksClosedForm(sf: real)
    requires sf > -1.0
    ensures |Ticks(sf)| == 4 * Trunc(sf) + 5
    ensures forall i :: 0 <= i < |Ticks(sf)| ==>
              Ticks(sf)[i] == (i as real) / 2.0 - 1.0 - Trunc(sf) as real
  {
    var n := Trunc(sf);
    var s := n as real;
    var left := HalfStepRange(-1.0 - s, 0.0);
    var right := HalfStepRange(1.0, 1.5 + s);
    HalfStepRangeLength(-1.0 - s, 0.0, 2 * n + 2);
    HalfStepRangeLength(1.0, 1.5 + s, 2 * n + 1);
    var t := Ticks(sf);
    assert t == left + [0.0, 0.5] + right;
    forall i | 0 <= i < |t| ensures t[i] == (i as real) / 2.0 - 1.0 - s {
      if i >= 2 * n + 4 {
        assert t[i] == right[i - (2 * n + 4)];
      }
    }
  }

  /** The first tick is -(1 + s) and the last is 1 + s. */
  lemma TicksEndpoints(sf: real)
    requires sf > -1.0
    ensures Ticks(sf)[0] == -1.0 - Trunc(sf) as real
    ensures Ticks(sf)[|Ticks(sf)| - 1] == 1.0 + Trunc(sf) as real
  {
    TicksClosedForm(sf);
  }

  /** Consecutive ticks are exactly half a unit apart. */
  lemma TicksStep(sf: real)
    requires sf > -1.0
    ensures forall i :: 0 <= i < |Ticks(sf)| - 1 ==> Ticks(sf)[i + 1] - Ticks(sf)[i] == 0.5
  {
    TicksClosedForm(sf);
  }

  /** For every scaling factor, negative ones included, the ticks are strictly increasing. */
  lemma TicksStrictlyIncreasing(sf: real)
    ensures forall i, j :: 0 <= i < j < |Ticks(sf)| ==> Ticks(sf)[i] < Ticks(sf)[j]
  {
    var s := Trunc(sf) as real;
    var left := HalfStepRange(-1.0 - s, 0.0);
    var right := HalfStepRange(1.0, 1.5 + s);
    var t := Ticks(sf);
    var m := |left|;
    assert t == left + [0.0, 0.5] + right;
    forall i, j | 0 <= i < j < |t| ensures t[i] < t[j] {
      if j < m {
        assert t[i] == left[i] && t[j] == left[j];
      } else if i < m {
        assert t[i] == left[i] < 0.0;
        if j >= m + 2 {
          assert t[j] == right[j - m - 2];
        }
      } else if j >= m + 2 {
        assert t[j] == right[j - m - 2];
        if i >= m + 2 {
          assert t[i] == right[i - m - 2];
        }
      }
    }
  }

  /** The ticks are symmetric about zero: t is a tick exactly when -t is. */
  lemma TicksSymmetric(sf: real)
    requires sf > -1.0
    ensures forall i :: 0 <= i < |Ticks(sf)| ==> Ticks(sf)[|Ticks(sf)| - 1 - i] == -Ticks(sf)[i]
    ensures forall x :: x in Ticks(sf) <==> -x in Ticks(sf)
  {
    TicksClosedForm(sf);
    var t := Ticks(sf);
    forall x | x in t ensures -x in t {
      var i :| 0 <= i < |t| && t[i] == x;
      assert t[|t| - 1 - i] == -x;
    }
    forall x | -x in t ensures x in t {
      var i :| 0 <= i < |t| && t[i] == -x;
      assert t[|t| - 1 - i] == x;
    }
  }

  /** x is a whole multiple of one half. */
  predicate IsHalfInteger(x: real) {
    (2.0 * x).Floor as real == 2.0 * x
  }

  lemma FloorOfInt(m: int)
    ensures (m as real).Floor == m
  {
  }

  /** Every tick is a half-integer between -(1 + s) and 1 + s. */
  lemma TickIsHalfInteger(sf: real, i: int)
    requires sf > -1.0 && 0 <= i < |Ticks(sf)|
    ensures -1.0 - Trunc(sf) as real <= Ticks(sf)[i] <= 1.0 + Trunc(sf) as real
    ensures IsHalfInteger(Ticks(sf)[i])
  {
    TicksClosedForm(sf);
    var m := i - 2 - 2 * Trunc(sf);
    assert 2.0 * Ticks(sf)[i] == m as real;
    FloorOfInt(m);
  }

  /** Every half-integer between -(1 + s) and 1 + s is a tick. */
  lemma HalfIntegerIsTick(sf: real, x: real)
    requires sf > -1.0 && IsHalfInteger(x)
    requires -1.0 - Trunc(sf) as real <= x <= 1.0 + Trunc(sf) as real
    ensures x in Ticks(sf)
  {
    TicksClosedForm(sf);
    var i := (2.0 * x).Floor + 2 + 2 * Trunc(sf);
    assert Ticks(sf)[i] == x;
  }

  /** The ticks are exactly the half-integers from -(1 + s) to 1 + s. */
  lemma TicksMembership(sf: real)
    requires sf > -1.0
    ensures forall x :: x in Ticks(sf) <==>
              -1.0 - Trunc(sf) as real <= x <= 1.0 + Trunc(sf) as real && IsHalfInteger(x)
  {
    var t := Ticks(sf);
    forall x | x in t ensures -1.0 - Trunc(sf) as real <= x <= 1.0 + Trunc(sf) as real && IsHalfInteger(x) {
      var i :| 0 <= i < |t| && t[i] == x;
      TickIsHalfInteger(sf, i);
    }
    forall x | -1.0 - Trunc(sf) as real <= x <= 1.0 + Trunc(sf) as real && IsHalfInteger(x)
      ensures x in t
    {
      HalfIntegerIsTick(sf, x);
    }
  }

  /** A scaling factor of -1 or below truncates to s <= -1 and leaves only the ticks 0 and 0.5. */
  lemma TicksBelowMinusOne(sf: real)
    requires sf <= -1.0
    ensures Ticks(sf) == [0.0, 0.5]
  {
    var s := Trunc(sf) as real;
    assert s <= -1.0;
    assert |HalfStepRange(-1.0 - s, 0.0)| == 0;
    assert |HalfStepRange(1.0, 1.5 + s)| == 0;
  }

  /** With the default scaling factor 0 the ticks are -1, -0.5, 0, 0.5 and 1. */
  lemma TicksAtZero()
    ensures Ticks(0.0) == [-1.0, -0.5, 0.0, 0.5, 1.0]
  {
    TicksClosedForm(0.0);
  }

  /** With scaling factor 1 the ticks run from -2 to 2 in nine half steps. */
  lemma TicksAtOne()
    ensures Ticks(1.0) == [-2.0, -1.5, -1.0, -0.5, 0.0, 0.5, 1.0, 1.5, 2.0]
  {
    TicksClosedForm(1.0);
  }

  /**
   * The guides use the untruncated sf, the ticks the truncated one; for
   * sf >= 0 both guides reach past the outermost ticks by at least one unit
   * and by less than two.
   */
  lemma GuidesEncloseTicks(sf: real)
    requires sf >= 0.0
    ensures forall i :: 0 <= i < |Ticks(sf)| ==>
              HorizontalGuide(sf).from.x < Ticks(sf)[i] < HorizontalGuide(sf).to.x &&
              VerticalGuide(sf).from.y < Ticks(sf)[i] < VerticalGuide(sf).to.y
    ensures 1.0 <= HorizontalGuide(sf).to.x - Ticks(sf)[|Ticks(sf)| - 1] < 2.0
  {
    TicksClosedForm(sf);
  }
}
