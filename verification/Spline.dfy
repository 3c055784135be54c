/** The cubic spline of nrlmsise-00.cpp: spline, splint and splini, over exact reals. */
module CubicSpline {

  /** Given derivatives above this size ask for a second derivative of zero instead. */
  const NATURAL := 990000000000000000000000000000.0

  ghost predicate Increasing(x: seq<real>)
  {
    forall i, j | 0 <= i < j < |x| :: x[i] < x[j]
  }

  function Width(x: seq<real>, k: nat): real
    requires k + 1 < |x|
  {
    x[k + 1] - x[k]
  }

  /** Slope of the chord over interval k. */
  function Chord(x: seq<real>, y: seq<real>, k: nat): real
    requires k + 1 < |x| == |y| && x[k] < x[k + 1]
  {
    (y[k + 1] - y[k]) / (x[k + 1] - x[k])
  }

  // ---------- the equations of a spline ----------

  /** The second derivatives m make the slopes of the two pieces at knot i agree. */
  ghost predicate SmoothAt(x: seq<real>, y: seq<real>, m: seq<real>, i: nat)
    requires |x| == |y| == |m| && 1 <= i < |x| - 1 && Increasing(x)
  {
    var h, g := Width(x, i - 1), Width(x, i);
    h * m[i - 1] + 2.0 * (h + g) * m[i] + g * m[i + 1] == 6.0 * (Chord(x, y, i) - Chord(x, y, i - 1))
  }

  ghost predicate LeftEnd(x: seq<real>, y: seq<real>, m: seq<real>, yp1: real)
    requires |x| == |y| == |m| >= 2 && Increasing(x)
  {
    if yp1 > NATURAL then m[0] == 0.0
    else Width(x, 0) * (2.0 * m[0] + m[1]) == 6.0 * (Chord(x, y, 0) - yp1)
  }

  ghost predicate RightEnd(x: seq<real>, y: seq<real>, m: seq<real>, ypn: real)
    requires |x| == |y| == |m| >= 2 && Increasing(x)
  {
    var n := |x|;
    if ypn > NATURAL then m[n - 1] == 0.0
    else Width(x, n - 2) * (m[n - 2] + 2.0 * m[n - 1]) == 6.0 * (ypn - Chord(x, y, n - 2))
  }

  ghost predicate SplineSolution(x: seq<real>, y: seq<real>, yp1: real, ypn: real, m: seq<real>)
    requires |x| == |y| == |m| >= 2 && Increasing(x)
  {
    && LeftEnd(x, y, m, yp1) && RightEnd(x, y, m, ypn)
    && forall i | 1 <= i < |x| - 1 :: SmoothAt(x, y, m, i)
  }

  // ---------- the forward sweep ----------

  function SigOf(x0: real, x1: real, x2: real): real
    requires x0 < x1 < x2
  {
    (x1 - x0) / (x2 - x0)
  }

  function RhsOf(x0: real, x1: real, x2: real, y0: real, y1: real, y2: real): real
    requires x0 < x1 < x2
  {
    6.0 * ((y2 - y1) / (x2 - x1) - (y1 - y0) / (x1 - x0)) / (x2 - x0)
  }

  function PivotOf(sig: real, c: real): real
  {
    sig * c + 2.0
  }

  function QuotientOf(sig: real, p: real): real
    requires p != 0.0
  {
    (sig - 1.0) / p
  }

  function CarryOf(r: real, sig: real, u: real, p: real): real
    requires p != 0.0
  {
    (r - sig * u) / p
  }

  /** The right-hand side of an end condition: three times the chord less the slope, over the width. */
  function EndOf(x0: real, x1: real, d: real): real
    requires x0 < x1
  {
    (3.0 / (x1 - x0)) * d
  }

  function Sig(x: seq<real>, i: nat): real
    requires 1 <= i < |x| - 1 && Increasing(x)
  {
    SigOf(x[i - 1], x[i], x[i + 1])
  }

  function Rhs(x: seq<real>, y: seq<real>, i: nat): real
    requires 1 <= i < |x| - 1 && |x| == |y| && Increasing(x)
  {
    RhsOf(x[i - 1], x[i], x[i + 1], y[i - 1], y[i], y[i + 1])
  }

  /** What the sweep leaves at i: m[i] == c[i] * m[i + 1] + u[i] stands for the equations up to i. */
  ghost predicate SweptAt(x: seq<real>, y: seq<real>, c: seq<real>, u: seq<real>, i: nat)
    requires 1 <= i < |x| - 1 && |x| == |y| && i < |c| && i < |u| && Increasing(x)
  {
    SweptBy(Sig(x, i), Rhs(x, y, i), c[i - 1], u[i - 1], c[i], u[i])
  }

  ghost predicate SweptBy(sig: real, r: real, c0: real, u0: real, c1: real, u1: real)
  {
    var p := PivotOf(sig, c0);
    p > 0.0 && p * c1 == sig - 1.0 && p * u1 == r - sig * u0
  }

  lemma {:induction false} Ratio(a: real, b: real)
    requires 0.0 < a < b
    ensures 0.0 < a / b < 1.0
  {
    var q := a / b;
    assert b * q == a;
    assert q >= 1.0 ==> b * (q - 1.0) >= 0.0;
    assert q <= 0.0 ==> b * -q >= 0.0;
  }

  lemma {:induction false} SigRange(x: seq<real>, i: nat)
    requires 1 <= i < |x| - 1 && Increasing(x)
    ensures x[i - 1] < x[i] < x[i + 1]
    ensures 0.0 < Sig(x, i) < 1.0
  {
    Ratio(x[i] - x[i - 1], x[i + 1] - x[i - 1]);
  }

  lemma {:induction false} PivotRange(sig: real, c: real)
    requires 0.0 < sig < 1.0 && -1.0 < c <= 0.0
    ensures 1.0 < sig * c + 2.0 <= 2.0
  {
    var e := -c;
    assert sig * e < 1.0 * 1.0 by {
      assert sig * e <= 1.0 * e;
    }
    assert sig * e >= 0.0;
    assert sig * c == -(sig * e);
  }

  lemma {:induction false} SweptRange(sig: real, p: real)
    requires 0.0 < sig < 1.0 && 1.0 < p
    ensures -1.0 < (sig - 1.0) / p < 0.0
    ensures p * ((sig - 1.0) / p) == sig - 1.0
  {
    Ratio(1.0 - sig, p);
    assert (sig - 1.0) / p == -((1.0 - sig) / p);
  }

  lemma {:induction false} Cancel(a: real, p: real)
    requires p != 0.0
    ensures p * (a / p) == a
  {
  }

  // ---------- back substitution ----------

  lemma {:induction false} BackEquation(sig: real, c0: real, c1: real, u0: real, u1: real, r: real, m0: real,
      m1: real, m2: real)
    requires m0 == c0 * m1 + u0 && m1 == c1 * m2 + u1
    requires (sig * c0 + 2.0) * c1 == sig - 1.0
    requires (sig * c0 + 2.0) * u1 == r - sig * u0
    ensures sig * m0 + 2.0 * m1 + (1.0 - sig) * m2 == r
  {
    var p := sig * c0 + 2.0;
    assert sig * m0 == sig * (c0 * m1) + sig * u0;
    assert sig * (c0 * m1) == (sig * c0) * m1;
    assert sig * m0 + 2.0 * m1 == p * m1 + sig * u0;
    assert p * m1 == (p * c1) * m2 + p * u1;
  }

  lemma {:induction false} ScaleEquation(h: real, g: real, m0: real, m1: real, m2: real, d: real, sig: real, r: real)
    requires h > 0.0 && g > 0.0
    requires sig == h / (h + g) && r == 6.0 * d / (h + g)
    requires sig * m0 + 2.0 * m1 + (1.0 - sig) * m2 == r
    ensures h * m0 + 2.0 * (h + g) * m1 + g * m2 == 6.0 * d
  {
    var w := h + g;
    Cancel(h, w);
    Cancel(6.0 * d, w);
    assert w * sig == h && w * r == 6.0 * d;
    assert w * (sig * m0 + 2.0 * m1 + (1.0 - sig) * m2) == (w * sig) * m0 + 2.0 * w * m1 + (w - w * sig) * m2;
  }

  lemma {:induction false} SweptIsSmooth(x: seq<real>, y: seq<real>, c: seq<real>, u: seq<real>, m: seq<real>, i: nat)
    requires |x| == |y| == |m| && 1 <= i < |x| - 1 && |c| == |u| == |x| && Increasing(x)
    requires SweptAt(x, y, c, u, i)
    requires m[i - 1] == c[i - 1] * m[i] + u[i - 1] && m[i] == c[i] * m[i + 1] + u[i]
    ensures SmoothAt(x, y, m, i)
  {
    SigRange(x, i);
    BackEquation(Sig(x, i), c[i - 1], c[i], u[i - 1], u[i], Rhs(x, y, i), m[i - 1], m[i], m[i + 1]);
    ScaleEquation(x[i] - x[i - 1], x[i + 1] - x[i], m[i - 1], m[i], m[i + 1],
                  Chord(x, y, i) - Chord(x, y, i - 1), Sig(x, i), Rhs(x, y, i));
  }

  /** The forward sweep of spline; its quotients stay in (-1, 0], so no pivot vanishes. */
  method Sweep(x: array<real>, y: array<real>, yp1: real, y2: array<real>, u: array<real>)
    requires x.Length == y.Length == y2.Length == u.Length >= 2
    requires y2 != x && y2 != y && u != x && u != y && u != y2 && Increasing(x[..])
    modifies y2, u
    ensures forall j | 0 <= j < x.Length - 1 :: -1.0 < y2[j] <= 0.0
    ensures LeftSwept(x[..], y[..], yp1, y2[0], u[0])
    ensures forall j | 1 <= j < x.Length - 1 :: SweptAt(x[..], y[..], y2[..], u[..], j)
  {
    hide SigOf, RhsOf, PivotOf, QuotientOf, CarryOf, EndOf, Chord, SweptBy, Sig, Rhs, LeftSwept;
    var n := x.Length;
    ghost var xs, ys := x[..], y[..];
    if yp1 > NATURAL {
      y2[0] := 0.0;
      u[0] := 0.0;
    } else {
      y2[0] := -0.5;
      u[0] := EndOf(x[0], x[1], (y[1] - y[0]) / (x[1] - x[0]) - yp1);
    }
    LeftStart(xs, ys, yp1, y2[0], u[0]);
    for i := 1 to n - 1
      invariant forall j | 0 <= j < i :: -1.0 < y2[j] <= 0.0
      invariant forall j | 1 <= j < i ::
                  SweptBy(Sig(xs, j), Rhs(xs, ys, j), y2[j - 1], u[j - 1], y2[j], u[j])
      invariant LeftSwept(xs, ys, yp1, y2[0], u[0])
    {
      var sig := SigOf(x[i - 1], x[i], x[i + 1]);
      var r := RhsOf(x[i - 1], x[i], x[i + 1], y[i - 1], y[i], y[i + 1]);
      SigRange(xs, i);
      SameNames(xs, ys, i);
      SweepStep(sig, r, y2[i - 1], u[i - 1]);
      var p := PivotOf(sig, y2[i - 1]);
      y2[i] := QuotientOf(sig, p);
      u[i] := CarryOf(r, sig, u[i - 1], p);
    }
  }

  lemma {:induction false} SameNames(x: seq<real>, y: seq<real>, i: nat)
    requires 1 <= i < |x| - 1 && |x| == |y| && Increasing(x)
    ensures Sig(x, i) == SigOf(x[i - 1], x[i], x[i + 1])
    ensures Rhs(x, y, i) == RhsOf(x[i - 1], x[i], x[i + 1], y[i - 1], y[i], y[i + 1])
  {
  }

  lemma {:induction false} LeftStart(x: seq<real>, y: seq<real>, yp1: real, c0: real, u0: real)
    requires |x| == |y| >= 2 && Increasing(x)
    requires if yp1 > NATURAL then c0 == 0.0 && u0 == 0.0
             else c0 == -0.5 && u0 == EndOf(x[0], x[1], (y[1] - y[0]) / (x[1] - x[0]) - yp1)
    ensures LeftSwept(x, y, yp1, c0, u0)
  {
  }

  /** The values that one step of the sweep stores. */
  lemma {:induction false} SweepStep(sig: real, r: real, c: real, u: real)
    requires 0.0 < sig < 1.0 && -1.0 < c <= 0.0
    ensures var p := PivotOf(sig, c);
            p > 1.0 && -1.0 < QuotientOf(sig, p) < 0.0 && SweptBy(sig, r, c, u, QuotientOf(sig, p), CarryOf(r, sig, u, p))
  {
    var p := PivotOf(sig, c);
    PivotRange(sig, c);
    SweptRange(sig, p);
    Cancel(r - sig * u, p);
  }

  /** The back substitution of spline. */
  method BackSubstitute(y2: array<real>, u: array<real>)
    requires y2.Length == u.Length >= 2 && y2 != u
    modifies y2
    ensures y2[y2.Length - 1] == old(y2[y2.Length - 1])
    ensures forall j | 0 <= j < y2.Length - 1 :: y2[j] == old(y2[j]) * y2[j + 1] + u[j]
  {
    var k := y2.Length - 2;
    while k >= 0
      invariant -1 <= k <= y2.Length - 2
      invariant y2[y2.Length - 1] == old(y2[y2.Length - 1])
      invariant forall j | 0 <= j <= k :: y2[j] == old(y2[j])
      invariant forall j | k < j < y2.Length - 1 :: y2[j] == old(y2[j]) * y2[j + 1] + u[j]
    {
      y2[k] := y2[k] * y2[k + 1] + u[k];
      k := k - 1;
    }
  }

  /** The last second derivative, from the condition at the right end. */
  method LastValue(x: array<real>, y: array<real>, ypn: real, c: real, u: real) returns (last: real)
    requires x.Length == y.Length >= 2 && Increasing(x[..]) && -1.0 < c <= 0.0
    ensures RightSwept(x[..], y[..], ypn, c, u, last)
  {
    hide RightSwept, EndOf, LastOf;
    var n := x.Length;
    var qn, un;
    if ypn > NATURAL {
      qn, un := 0.0, 0.0;
    } else {
      qn := 0.5;
      un := EndOf(x[n - 2], x[n - 1], ypn - (y[n - 1] - y[n - 2]) / (x[n - 1] - x[n - 2]));
    }
    LastSwept(x[..], y[..], ypn, qn, un, c, u);
    last := LastOf(qn, un, c, u);
  }

  /** spline: fills the caller's array with the second derivatives of the spline. */
  method Spline(x: array<real>, y: array<real>, yp1: real, ypn: real, y2: array<real>)
    requires x.Length == y.Length == y2.Length >= 2
    requires y2 != x && y2 != y && Increasing(x[..])
    modifies y2
    ensures SplineSolution(x[..], y[..], yp1, ypn, y2[..])
  {
    hide SweptAt, LeftSwept, RightSwept, SplineSolution;
    var n := x.Length;
    var u := new real[n];
    Sweep(x, y, yp1, y2, u);
    ghost var xs, ys, c, w := x[..], y[..], y2[..], u[..];
    y2[n - 1] := LastValue(x, y, ypn, y2[n - 2], u[n - 2]);
    BackSubstitute(y2, u);
    SweptSolves(xs, ys, yp1, ypn, c, w, y2[..]);
  }

  ghost predicate LeftSwept(x: seq<real>, y: seq<real>, yp1: real, c0: real, u0: real)
    requires |x| == |y| >= 2 && Increasing(x)
  {
    if yp1 > NATURAL then c0 == 0.0 && u0 == 0.0
    else c0 == -0.5 && u0 == EndOf(x[0], x[1], Chord(x, y, 0) - yp1)
  }

  ghost predicate RightSwept(x: seq<real>, y: seq<real>, ypn: real, c: real, u: real, last: real)
    requires |x| == |y| >= 2 && Increasing(x)
  {
    var n := |x|;
    if ypn > NATURAL then last == 0.0
    else (0.5 * c + 1.0) * last == EndOf(x[n - 2], x[n - 1], ypn - Chord(x, y, n - 2)) - 0.5 * u
  }

  function LastOf(qn: real, un: real, c: real, u: real): real
    requires qn * c + 1.0 != 0.0
  {
    (un - qn * u) / (qn * c + 1.0)
  }

  lemma {:induction false} LastSwept(x: seq<real>, y: seq<real>, ypn: real, qn: real, un: real, c: real, u: real)
    requires |x| == |y| >= 2 && Increasing(x) && -1.0 < c <= 0.0
    requires qn == if ypn > NATURAL then 0.0 else 0.5
    requires un == if ypn > NATURAL then 0.0 else EndOf(x[|x| - 2], x[|x| - 1], ypn - Chord(x, y, |x| - 2))
    ensures qn * c + 1.0 > 0.0 && RightSwept(x, y, ypn, c, u, LastOf(qn, un, c, u))
  {
    hide EndOf, Chord;
    Cancel(un - qn * u, qn * c + 1.0);
  }

  lemma {:induction false} SweptSolves(x: seq<real>, y: seq<real>, yp1: real, ypn: real,
                                       c: seq<real>, u: seq<real>, m: seq<real>)
    requires |x| == |y| == |m| == |c| == |u| >= 2 && Increasing(x)
    requires forall i {:trigger SweptAt(x, y, c, u, i)} | 1 <= i < |x| - 1 :: SweptAt(x, y, c, u, i)
    requires forall i | 0 <= i < |x| - 1 :: m[i] == c[i] * m[i + 1] + u[i]
    requires LeftSwept(x, y, yp1, c[0], u[0])
    requires RightSwept(x, y, ypn, c[|x| - 2], u[|x| - 2], m[|x| - 1])
    ensures SplineSolution(x, y, yp1, ypn, m)
  {
    hide SweptAt, SmoothAt;
    LeftSolved(x, y, yp1, c[0], u[0], m);
    RightSolved(x, y, ypn, c[|x| - 2], u[|x| - 2], m);
    hide LeftSwept, RightSwept, LeftEnd, RightEnd;
    forall i | 1 <= i < |x| - 1 ensures SmoothAt(x, y, m, i) {
      assert m[i - 1] == c[i - 1] * m[i - 1 + 1] + u[i - 1];
      assert SweptAt(x, y, c, u, i);
      SweptIsSmooth(x, y, c, u, m, i);
    }
  }

  lemma {:induction false} LeftSolved(x: seq<real>, y: seq<real>, yp1: real, c: real, u: real, m: seq<real>)
    requires |x| == |y| == |m| >= 2 && Increasing(x)
    requires LeftSwept(x, y, yp1, c, u) && m[0] == c * m[1] + u
    ensures LeftEnd(x, y, m, yp1)
  {
    hide Chord;
    if yp1 <= NATURAL {
      EndEquation(Width(x, 0), Chord(x, y, 0) - yp1, m[0], m[1]);
    }
  }

  lemma {:induction false} RightSolved(x: seq<real>, y: seq<real>, ypn: real, c: real, u: real, m: seq<real>)
    requires |x| == |y| == |m| >= 2 && Increasing(x)
    requires RightSwept(x, y, ypn, c, u, m[|x| - 1]) && m[|x| - 2] == c * m[|x| - 1] + u
    ensures RightEnd(x, y, m, ypn)
  {
    hide Chord;
    var n := |x|;
    if ypn <= NATURAL {
      RightEquation(c, u, m[n - 2], m[n - 1], EndOf(x[n - 2], x[n - 1], ypn - Chord(x, y, n - 2)));
      EndEquation(Width(x, n - 2), ypn - Chord(x, y, n - 2), m[n - 1], m[n - 2]);
    }
  }

  lemma {:induction false} EndEquation(h: real, d: real, m0: real, m1: real)
    requires h > 0.0 && m0 == -0.5 * m1 + (3.0 / h) * d
    ensures h * (2.0 * m0 + m1) == 6.0 * d
  {
    Cancel(3.0, h);
    assert 2.0 * m0 + m1 == 2.0 * ((3.0 / h) * d);
    assert h * ((3.0 / h) * d) == (h * (3.0 / h)) * d;
  }

  lemma {:induction false} RightEquation(c: real, u: real, m0: real, m1: real, r: real)
    requires m0 == c * m1 + u && (0.5 * c + 1.0) * m1 == r - 0.5 * u
    ensures m1 == -0.5 * m0 + r
  {
  }
}
