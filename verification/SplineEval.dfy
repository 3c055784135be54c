/** splint and splini: the spline's pieces, what they evaluate to, how they join, and their integral. */
module SplineEvaluation {
  import opened CubicSpline

  // ---------- basis functions in the barycentric coordinate ----------

  function Bend(a: real): real
  {
    a * a * a - a
  }

  function BendSlope(a: real): real
  {
    3.0 * a * a - 1.0
  }

  function LeftBendArea(a: real): real
  {
    -(1.0 + a * a * a * a) / 4.0 + a * a / 2.0
  }

  function RightBendArea(b: real): real
  {
    b * b * b * b / 4.0 - b * b / 2.0
  }

  lemma {:induction false} BendTaylor(a: real, s: real)
    ensures Bend(a + s) == Bend(a) + s * BendSlope(a) + 3.0 * a * s * s + s * s * s
    ensures Bend(a - s) == Bend(a) - s * BendSlope(a) + 3.0 * a * s * s - s * s * s
  {
  }

  lemma {:induction false} LeftAreaTaylor(a: real, s: real)
    ensures LeftBendArea(a - s) ==
            LeftBendArea(a) + s * Bend(a) - s * s * BendSlope(a) / 2.0 + s * s * s * a - s * s * s * s / 4.0
  {
  }

  lemma {:induction false} RightAreaTaylor(b: real, s: real)
    ensures RightBendArea(b + s) ==
            RightBendArea(b) + s * Bend(b) + s * s * BendSlope(b) / 2.0 + s * s * s * b + s * s * s * s / 4.0
  {
  }

  // ---------- one cubic over an interval of width h; a falls from 1 to 0 and b rises from 0 to 1 ----------

  /** p and q are the bends at a and b. */
  function Blend(h: real, a: real, b: real, p: real, q: real, y0: real, y1: real, m0: real, m1: real): real
  {
    a * y0 + b * y1 + (p * m0 + q * m1) * h * h / 6.0
  }

  function Cubic(h: real, a: real, b: real, y0: real, y1: real, m0: real, m1: real): real
  {
    Blend(h, a, b, Bend(a), Bend(b), y0, y1, m0, m1)
  }

  function SlopeBlend(h: real, p: real, q: real, chord: real, m0: real, m1: real): real
  {
    chord + (q * m1 - p * m0) * h / 6.0
  }

  function CubicSlope(h: real, a: real, b: real, chord: real, m0: real, m1: real): real
  {
    SlopeBlend(h, BendSlope(a), BendSlope(b), chord, m0, m1)
  }

  function CubicCurvature(a: real, b: real, m0: real, m1: real): real
  {
    a * m0 + b * m1
  }

  function AreaBlend(h: real, a: real, b: real, p: real, q: real, y0: real, y1: real, m0: real, m1: real): real
  {
    ((1.0 - a * a) * y0 / 2.0 + b * b * y1 / 2.0 + (p * m0 + q * m1) * h * h / 6.0) * h
  }

  function CubicArea(h: real, a: real, b: real, y0: real, y1: real, m0: real, m1: real): real
  {
    AreaBlend(h, a, b, LeftBendArea(a), RightBendArea(b), y0, y1, m0, m1)
  }

  /** The terms of an expansion by e, which is s widths: first, second and third order. */
  function Expansion(value: real, slope: real, curvature: real, jump: real, e: real, s: real): real
  {
    value + e * slope + e * e * curvature / 2.0 + e * e * s * jump / 6.0
  }

  function AreaExpansion(area: real, value: real, slope: real, curvature: real, jump: real, e: real, s: real): real
  {
    area + e * value + e * e * slope / 2.0 + e * e * e * curvature / 6.0 + e * e * e * s * jump / 24.0
  }

  lemma {:induction false} LineTaylor(h: real, a: real, b: real, s: real, y0: real, chord: real)
    ensures (a - s) * y0 + (b + s) * (y0 + h * chord) == a * y0 + b * (y0 + h * chord) + s * h * chord
  {
  }

  lemma {:induction false} BendsTaylor(a: real, b: real, s: real, m0: real, m1: real, pa: real, pb: real, qa: real,
                                       qb: real)
    ensures (pa - s * qa + 3.0 * a * s * s - s * s * s) * m0 + (pb + s * qb + 3.0 * b * s * s + s * s * s) * m1 ==
            (pa * m0 + pb * m1) + s * (qb * m1 - qa * m0) + 3.0 * s * s * (a * m0 + b * m1) + s * s * s * (m1 - m0)
  {
  }

  lemma {:induction false} ScaledTerms(h: real, s: real, p: real, q: real, r: real, d: real)
    ensures (p + s * q + 3.0 * s * s * r + s * s * s * d) * h * h / 6.0 ==
            p * h * h / 6.0 + s * h * (q * h / 6.0) + s * h * (s * h) * r / 2.0 + s * h * (s * h) * s * d / 6.0
  {
  }

  lemma {:induction false} BlendTaylor(h: real, a: real, b: real, s: real, y0: real, chord: real, m0: real, m1: real,
                                       pa: real, pb: real, qa: real, qb: real)
    ensures Blend(h, a - s, b + s, pa - s * qa + 3.0 * a * s * s - s * s * s, pb + s * qb + 3.0 * b * s * s + s * s * s,
                  y0, y0 + h * chord, m0, m1) ==
            Expansion(Blend(h, a, b, pa, pb, y0, y0 + h * chord, m0, m1), SlopeBlend(h, qa, qb, chord, m0, m1),
                      CubicCurvature(a, b, m0, m1), m1 - m0, s * h, s)
  {
    LineTaylor(h, a, b, s, y0, chord);
    BendsTaylor(a, b, s, m0, m1, pa, pb, qa, qb);
    ScaledTerms(h, s, pa * m0 + pb * m1, qb * m1 - qa * m0, a * m0 + b * m1, m1 - m0);
  }

  lemma {:induction false} CubicTaylor(h: real, a: real, b: real, s: real, y0: real, y1: real, m0: real,
      m1: real, chord: real)
    requires y1 == y0 + h * chord
    ensures Cubic(h, a - s, b + s, y0, y1, m0, m1) ==
            Expansion(Cubic(h, a, b, y0, y1, m0, m1), CubicSlope(h, a, b, chord, m0, m1),
                      CubicCurvature(a, b, m0, m1), m1 - m0, s * h, s)
  {
    hide Bend, BendSlope, Blend, SlopeBlend, Expansion, CubicCurvature;
    BendTaylor(a, s);
    BendTaylor(b, s);
    BlendTaylor(h, a, b, s, y0, chord, m0, m1, Bend(a), Bend(b), BendSlope(a), BendSlope(b));
  }

  lemma {:induction false} AreaBlendTaylor(h: real, a: real, b: real, s: real, y0: real, chord: real, m0: real,
      m1: real,
                                           pa: real, pb: real, qa: real, qb: real, ga: real, gb: real)
    ensures AreaBlend(h, a - s, b + s,
                      ga + s * pa - s * s * qa / 2.0 + s * s * s * a - s * s * s * s / 4.0,
                      gb + s * pb + s * s * qb / 2.0 + s * s * s * b + s * s * s * s / 4.0,
                      y0, y0 + h * chord, m0, m1) ==
            AreaExpansion(AreaBlend(h, a, b, ga, gb, y0, y0 + h * chord, m0, m1),
                          Blend(h, a, b, pa, pb, y0, y0 + h * chord, m0, m1), SlopeBlend(h, qa, qb, chord, m0, m1),
                          CubicCurvature(a, b, m0, m1), m1 - m0, s * h, s)
  {
  }

  lemma {:induction false} CubicAreaTaylor(h: real, a: real, b: real, s: real, y0: real, y1: real, m0: real,
      m1: real, chord: real)
    requires y1 == y0 + h * chord
    ensures CubicArea(h, a - s, b + s, y0, y1, m0, m1) ==
            AreaExpansion(CubicArea(h, a, b, y0, y1, m0, m1), Cubic(h, a, b, y0, y1, m0, m1),
                          CubicSlope(h, a, b, chord, m0, m1), CubicCurvature(a, b, m0, m1), m1 - m0, s * h, s)
  {
    hide Bend, BendSlope, LeftBendArea, RightBendArea, Blend, SlopeBlend, AreaBlend, AreaExpansion, CubicCurvature;
    LeftAreaTaylor(a, s);
    RightAreaTaylor(b, s);
    AreaBlendTaylor(h, a, b, s, y0, chord, m0, m1, Bend(a), Bend(b), BendSlope(a), BendSlope(b),
                    LeftBendArea(a), RightBendArea(b));
  }

  // ---------- pieces ----------

  /** The barycentric coordinates of t in the interval from u to v. */
  function LeftPart(u: real, v: real, t: real): real
    requires u < v
  {
    (v - t) / (v - u)
  }

  function RightPart(u: real, v: real, t: real): real
    requires u < v
  {
    (t - u) / (v - u)
  }

  /** The cubic over interval k at t, as splint evaluates it. */
  function Piece(x: seq<real>, y: seq<real>, m: seq<real>, k: nat, t: real): real
    requires |x| == |y| == |m| && k + 1 < |x| && x[k] < x[k + 1]
  {
    var h := x[k + 1] - x[k];
    Cubic(h, LeftPart(x[k], x[k + 1], t), RightPart(x[k], x[k + 1], t), y[k], y[k + 1], m[k], m[k + 1])
  }

  function PieceSlope(x: seq<real>, y: seq<real>, m: seq<real>, k: nat, t: real): real
    requires |x| == |y| == |m| && k + 1 < |x| && x[k] < x[k + 1]
  {
    var h := x[k + 1] - x[k];
    CubicSlope(h, LeftPart(x[k], x[k + 1], t), RightPart(x[k], x[k + 1], t), Chord(x, y, k), m[k], m[k + 1])
  }

  function PieceCurvature(x: seq<real>, m: seq<real>, k: nat, t: real): real
    requires |x| == |m| && k + 1 < |x| && x[k] < x[k + 1]
  {
    CubicCurvature(LeftPart(x[k], x[k + 1], t), RightPart(x[k], x[k + 1], t), m[k], m[k + 1])
  }

  /** The integral over interval k from its left end to t, as splini adds it up. */
  function PieceArea(x: seq<real>, y: seq<real>, m: seq<real>, k: nat, t: real): real
    requires |x| == |y| == |m| && k + 1 < |x| && x[k] < x[k + 1]
  {
    var h := x[k + 1] - x[k];
    CubicArea(h, LeftPart(x[k], x[k + 1], t), RightPart(x[k], x[k + 1], t), y[k], y[k + 1], m[k], m[k + 1])
  }

  /** Coordinates of t + e: they move by s, where e is s widths. */
  lemma {:induction false} Moved(u: real, v: real, t: real, s: real, e: real)
    requires u < v && e == s * (v - u)
    ensures LeftPart(u, v, t + e) == LeftPart(u, v, t) - s
    ensures RightPart(u, v, t + e) == RightPart(u, v, t) + s
  {
    var h := v - u;
    Cancel(v - t, h);
    Cancel(t - u, h);
    Cancel(v - (t + e), h);
    Cancel(t + e - u, h);
    Uncancel(h, LeftPart(u, v, t + e), LeftPart(u, v, t) - s);
    Uncancel(h, RightPart(u, v, t + e), RightPart(u, v, t) + s);
  }

  lemma {:induction false} Uncancel(h: real, p: real, q: real)
    requires h != 0.0 && h * p == h * q
    ensures p == q
  {
  }

  /** The exact expansions of a piece and of its area: PieceArea, Piece, PieceSlope and PieceCurvature are each
      the derivative of the one before. */
  lemma {:induction false} PieceTaylor(x: seq<real>, y: seq<real>, m: seq<real>, k: nat, t: real, s: real, e: real)
    requires |x| == |y| == |m| && k + 1 < |x| && x[k] < x[k + 1]
    requires e == s * (x[k + 1] - x[k])
    ensures Piece(x, y, m, k, t + e) ==
            Expansion(Piece(x, y, m, k, t), PieceSlope(x, y, m, k, t), PieceCurvature(x, m, k, t), m[k + 1] - m[k], e, s)
    ensures PieceArea(x, y, m, k, t + e) ==
            AreaExpansion(PieceArea(x, y, m, k, t), Piece(x, y, m, k, t), PieceSlope(x, y, m, k, t),
                          PieceCurvature(x, m, k, t), m[k + 1] - m[k], e, s)
  {
    hide Cubic, CubicSlope, CubicCurvature, CubicArea, Expansion, AreaExpansion, LeftPart, RightPart;
    var h := x[k + 1] - x[k];
    var a, b := LeftPart(x[k], x[k + 1], t), RightPart(x[k], x[k + 1], t);
    Moved(x[k], x[k + 1], t, s, e);
    Cancel(y[k + 1] - y[k], h);
    CubicTaylor(h, a, b, s, y[k], y[k + 1], m[k], m[k + 1], Chord(x, y, k));
    CubicAreaTaylor(h, a, b, s, y[k], y[k + 1], m[k], m[k + 1], Chord(x, y, k));
    assert e == s * h;
  }

  // ---------- how the pieces join ----------

  lemma {:induction false} AtLeftKnot(x: seq<real>, y: seq<real>, m: seq<real>, k: nat)
    requires |x| == |y| == |m| && k + 1 < |x| && x[k] < x[k + 1]
    ensures Piece(x, y, m, k, x[k]) == y[k] && PieceCurvature(x, m, k, x[k]) == m[k]
    ensures PieceArea(x, y, m, k, x[k]) == 0.0
    ensures 6.0 * PieceSlope(x, y, m, k, x[k]) == 6.0 * Chord(x, y, k) - (x[k + 1] - x[k]) * (2.0 * m[k] + m[k + 1])
  {
    hide Chord;
    var h := x[k + 1] - x[k];
    assert h / h == 1.0 && 0.0 / h == 0.0;
    assert LeftPart(x[k], x[k + 1], x[k]) == 1.0 && RightPart(x[k], x[k + 1], x[k]) == 0.0;
    assert LeftPart(x[k], x[k + 1], x[k + 1]) == 0.0 && RightPart(x[k], x[k + 1], x[k + 1]) == 1.0;
    AtCorner(h, y[k], y[k + 1], m[k], m[k + 1], Chord(x, y, k));
  }

  lemma {:induction false} AtRightKnot(x: seq<real>, y: seq<real>, m: seq<real>, k: nat)
    requires |x| == |y| == |m| && k + 1 < |x| && x[k] < x[k + 1]
    ensures Piece(x, y, m, k, x[k + 1]) == y[k + 1] && PieceCurvature(x, m, k, x[k + 1]) == m[k + 1]
    ensures 6.0 * PieceSlope(x, y, m, k, x[k + 1]) == 6.0 * Chord(x, y, k) + (x[k + 1] - x[k]) * (m[k] + 2.0 * m[k + 1])
  {
    hide Chord;
    var h := x[k + 1] - x[k];
    assert h / h == 1.0 && 0.0 / h == 0.0;
    assert LeftPart(x[k], x[k + 1], x[k]) == 1.0 && RightPart(x[k], x[k + 1], x[k]) == 0.0;
    assert LeftPart(x[k], x[k + 1], x[k + 1]) == 0.0 && RightPart(x[k], x[k + 1], x[k + 1]) == 1.0;
    AtCorner(h, y[k], y[k + 1], m[k], m[k + 1], Chord(x, y, k));
  }

  lemma {:induction false} AtCorner(h: real, y0: real, y1: real, m0: real, m1: real, chord: real)
    ensures Cubic(h, 1.0, 0.0, y0, y1, m0, m1) == y0 && Cubic(h, 0.0, 1.0, y0, y1, m0, m1) == y1
    ensures 6.0 * CubicSlope(h, 1.0, 0.0, chord, m0, m1) == 6.0 * chord - h * (2.0 * m0 + m1)
    ensures 6.0 * CubicSlope(h, 0.0, 1.0, chord, m0, m1) == 6.0 * chord + h * (m0 + 2.0 * m1)
    ensures CubicArea(h, 1.0, 0.0, y0, y1, m0, m1) == 0.0
    ensures CubicCurvature(1.0, 0.0, m0, m1) == m0 && CubicCurvature(0.0, 1.0, m0, m1) == m1
  {
  }

  /** At every interior knot the two pieces agree in value, slope and curvature. */
  lemma {:induction false} PiecesJoin(x: seq<real>, y: seq<real>, yp1: real, ypn: real, m: seq<real>, i: nat)
    requires |x| == |y| == |m| >= 2 && Increasing(x) && SplineSolution(x, y, yp1, ypn, m)
    requires 1 <= i < |x| - 1
    ensures Piece(x, y, m, i - 1, x[i]) == y[i] == Piece(x, y, m, i, x[i])
    ensures PieceSlope(x, y, m, i - 1, x[i]) == PieceSlope(x, y, m, i, x[i])
    ensures PieceCurvature(x, m, i - 1, x[i]) == PieceCurvature(x, m, i, x[i])
  {
    hide Piece, PieceSlope, PieceCurvature, Chord;
    AtRightKnot(x, y, m, i - 1);
    AtLeftKnot(x, y, m, i);
    assert SmoothAt(x, y, m, i);
  }

  /** The ends have the slopes asked for, or no curvature. */
  lemma {:induction false} EndsAsAsked(x: seq<real>, y: seq<real>, yp1: real, ypn: real, m: seq<real>)
    requires |x| == |y| == |m| >= 2 && Increasing(x) && SplineSolution(x, y, yp1, ypn, m)
    ensures if yp1 > 990000000000000000000000000000.0 then PieceCurvature(x, m, 0, x[0]) == 0.0 else PieceSlope(x, y, m, 0, x[0]) == yp1
    ensures var n := |x|;
            if ypn > 990000000000000000000000000000.0 then PieceCurvature(x, m, n - 2, x[n - 1]) == 0.0
            else PieceSlope(x, y, m, n - 2, x[n - 1]) == ypn
  {
    hide Piece, PieceSlope, PieceCurvature, Chord;
    var n := |x|;
    AtLeftKnot(x, y, m, 0);
    AtRightKnot(x, y, m, n - 2);
    if ypn <= NATURAL {
      assert Width(x, n - 2) * (m[n - 2] + 2.0 * m[n - 1]) == 6.0 * (ypn - Chord(x, y, n - 2));
      assert 6.0 * PieceSlope(x, y, m, n - 2, x[n - 1]) == 6.0 * ypn;
    }
  }

  // ---------- splint and splini ----------

  /** Interval k is the one splint uses for t: the one that holds it, or the first or last beyond the ends. */
  ghost predicate Brackets(x: seq<real>, k: nat, t: real)
    requires |x| >= 2
  {
    k + 1 < |x| && (k == 0 || x[k] <= t) && (k == |x| - 2 || t < x[k + 1])
  }

  /** splint: bisection, then the cubic of that interval. Every knot is passed through. */
  method Splint(xa: array<real>, ya: array<real>, y2a: array<real>, x: real) returns (y: real)
    requires xa.Length == ya.Length == y2a.Length >= 2 && Increasing(xa[..])
    ensures exists k: nat :: Brackets(xa[..], k, x) && y == Piece(xa[..], ya[..], y2a[..], k, x)
    ensures forall i | 0 <= i < xa.Length && x == xa[i] :: y == ya[i]
  {
    var klo, khi := 0, xa.Length - 1;
    while khi - klo > 1
      invariant 0 <= klo < khi < xa.Length
      invariant klo == 0 || xa[klo] <= x
      invariant khi == xa.Length - 1 || x < xa[khi]
    {
      var k := (khi + klo) / 2;
      if xa[k] > x {
        khi := k;
      } else {
        klo := k;
      }
    }
    var h := xa[khi] - xa[klo];
    var a := (xa[khi] - x) / h;
    var b := (x - xa[klo]) / h;
    y := Cubic(h, a, b, ya[klo], ya[khi], y2a[klo], y2a[khi]);
    assert Brackets(xa[..], klo, x) && y == Piece(xa[..], ya[..], y2a[..], klo, x);
    AtLeftKnot(xa[..], ya[..], y2a[..], klo);
    AtRightKnot(xa[..], ya[..], y2a[..], klo);
    forall i | 0 <= i < xa.Length && x == xa[i] ensures y == ya[i] {
      assert i == klo || i == khi;
    }
  }

  /** The integral over the intervals before k. */
  function AreaBefore(x: seq<real>, y: seq<real>, m: seq<real>, k: nat): real
    requires |x| == |y| == |m| && k < |x| && Increasing(x)
  {
    if k == 0 then 0.0 else AreaBefore(x, y, m, k - 1) + PieceArea(x, y, m, k - 1, x[k])
  }

  /** The integral from the first knot to t, when t lies in interval k. */
  function Integral(x: seq<real>, y: seq<real>, m: seq<real>, k: nat, t: real): real
    requires |x| == |y| == |m| && k + 1 < |x| && Increasing(x)
  {
    AreaBefore(x, y, m, k) + PieceArea(x, y, m, k, t)
  }

  /** It starts at 0 and does not jump at a knot: the intervals on both sides of it give the same. */
  lemma {:induction false} IntegralDoesNotJump(x: seq<real>, y: seq<real>, m: seq<real>, i: nat)
    requires |x| == |y| == |m| && 1 <= i && i + 1 < |x| && Increasing(x)
    ensures Integral(x, y, m, 0, x[0]) == 0.0
    ensures Integral(x, y, m, i - 1, x[i]) == Integral(x, y, m, i, x[i])
  {
    hide PieceArea;
    AtLeftKnot(x, y, m, 0);
    AtLeftKnot(x, y, m, i);
  }

  /** c0 + c1 t + c2 t^2 + c3 t^3. */
  datatype CubicForm = CubicForm(c0: real, c1: real, c2: real, c3: real)
  {
    function At(t: real): real
    {
      c0 + t * (c1 + t * (c2 + t * c3))
    }

    function SlopeAt(t: real): real
    {
      c1 + t * (2.0 * c2 + 3.0 * t * c3)
    }

    function CurvatureAt(t: real): real
    {
      2.0 * c2 + 6.0 * t * c3
    }

    function AntiderivativeAt(t: real): real
    {
      t * (c0 + t * (c1 / 2.0 + t * (c2 / 3.0 + t * c3 / 4.0)))
    }
  }

  /** Values and second derivatives are those of one cubic. */
  ghost predicate OfCubic(x: seq<real>, y: seq<real>, m: seq<real>, c: CubicForm)
    requires |x| == |y| == |m|
  {
    forall i | 0 <= i < |x| :: y[i] == c.At(x[i]) && m[i] == c.CurvatureAt(x[i])
  }

  lemma {:induction false} CubicChord(c: CubicForm, u: real, h: real, chord: real)
    requires h > 0.0 && h * chord == c.At(u + h) - c.At(u)
    ensures chord == c.c1 + c.c2 * (2.0 * u + h) + c.c3 * (3.0 * u * u + 3.0 * u * h + h * h)
  {
    var rest := c.c1 + c.c2 * (2.0 * u + h) + c.c3 * (3.0 * u * u + 3.0 * u * h + h * h);
    CubicStep(c, u, h);
    Uncancel(h, chord, rest);
  }

  lemma {:induction false} CubicStep(c: CubicForm, u: real, h: real)
    ensures c.At(u + h) - c.At(u) == h * (c.c1 + c.c2 * (2.0 * u + h) + c.c3 * (3.0 * u * u + 3.0 * u * h + h * h))
  {
  }

  lemma {:induction false} CubicLeftSlope(c: CubicForm, u: real, h: real, chord: real, slope: real)
    requires chord == c.c1 + c.c2 * (2.0 * u + h) + c.c3 * (3.0 * u * u + 3.0 * u * h + h * h)
    requires 6.0 * slope == 6.0 * chord - h * (2.0 * c.CurvatureAt(u) + c.CurvatureAt(u + h))
    ensures slope == c.SlopeAt(u)
  {
  }

  lemma {:induction false} ByWidths(c3: real, h: real, e: real, s: real)
    requires e == s * h
    ensures e * e * s * (6.0 * h * c3) == 6.0 * c3 * e * e * e
    ensures e * e * e * s * (6.0 * h * c3) == 6.0 * c3 * e * e * e * e
  {
    assert s * (6.0 * h * c3) == 6.0 * c3 * e;
    assert e * e * s * (6.0 * h * c3) == e * e * (s * (6.0 * h * c3));
    assert e * e * e * s * (6.0 * h * c3) == e * e * e * (s * (6.0 * h * c3));
  }

  lemma {:induction false} CubicExpansion(c: CubicForm, u: real, jump: real, e: real, s: real, third: real)
    requires e * e * s * jump == third && third == 6.0 * c.c3 * e * e * e
    ensures c.At(u + e) == Expansion(c.At(u), c.SlopeAt(u), c.CurvatureAt(u), jump, e, s)
  {
    assert c.At(u + e) == c.At(u) + e * c.SlopeAt(u) + e * e * c.CurvatureAt(u) / 2.0 + third / 6.0;
  }

  lemma {:induction false} CubicAreaExpansion(c: CubicForm, u: real, jump: real, e: real, s: real, fourth: real)
    requires e * e * e * s * jump == fourth && fourth == 6.0 * c.c3 * e * e * e * e
    ensures c.AntiderivativeAt(u + e) - c.AntiderivativeAt(u) ==
            AreaExpansion(0.0, c.At(u), c.SlopeAt(u), c.CurvatureAt(u), jump, e, s)
  {
    assert c.AntiderivativeAt(u + e) - c.AntiderivativeAt(u) ==
           e * c.At(u) + e * e * c.SlopeAt(u) / 2.0 + e * e * e * c.CurvatureAt(u) / 6.0 + fourth / 24.0;
  }

  /** On values of a cubic a piece is that cubic, and its area the exact integral. */
  lemma {:induction false} PieceOfCubic(x: seq<real>, y: seq<real>, m: seq<real>, k: nat, t: real, c: CubicForm)
    requires |x| == |y| == |m| && k + 1 < |x| && x[k] < x[k + 1] && OfCubic(x, y, m, c)
    ensures Piece(x, y, m, k, t) == c.At(t)
    ensures PieceArea(x, y, m, k, t) == c.AntiderivativeAt(t) - c.AntiderivativeAt(x[k])
  {
    hide Piece, PieceSlope, PieceCurvature, PieceArea, Expansion, AreaExpansion, CubicForm.At, CubicForm.SlopeAt,
         CubicForm.AntiderivativeAt;
    var u, h := x[k], x[k + 1] - x[k];
    var e := t - u;
    var s := e / h;
    Cancel(e, h);
    Cancel(y[k + 1] - y[k], h);
    assert u + h == x[k + 1] && u + e == t;
    PieceTaylor(x, y, m, k, u, s, e);
    AtLeftKnot(x, y, m, k);
    assert c.At(u + h) == y[k + 1] && c.At(u) == y[k];
    CubicChord(c, u, h, Chord(x, y, k));
    CubicLeftSlope(c, u, h, Chord(x, y, k), PieceSlope(x, y, m, k, u));
    CurvatureRises(c, u, h);
    ByWidths(c.c3, h, e, s);
    CubicExpansion(c, u, 6.0 * h * c.c3, e, s, 6.0 * c.c3 * e * e * e);
    CubicAreaExpansion(c, u, 6.0 * h * c.c3, e, s, 6.0 * c.c3 * e * e * e * e);
  }

  lemma {:induction false} CurvatureRises(c: CubicForm, u: real, h: real)
    ensures c.CurvatureAt(u + h) - c.CurvatureAt(u) == 6.0 * h * c.c3
  {
  }

  /** On values of a cubic, a line among them, the integral is exact: the difference of the antiderivative at t and
      at the first knot. */
  lemma {:induction false} IntegralOfCubic(x: seq<real>, y: seq<real>, m: seq<real>, k: nat, t: real, c: CubicForm)
    requires |x| == |y| == |m| && k + 1 < |x| && Increasing(x) && OfCubic(x, y, m, c)
    ensures Integral(x, y, m, k, t) == c.AntiderivativeAt(t) - c.AntiderivativeAt(x[0])
  {
    hide PieceArea, OfCubic, CubicForm.AntiderivativeAt;
    PieceOfCubic(x, y, m, k, t, c);
    if k > 0 {
      IntegralOfCubic(x, y, m, k - 1, x[k], c);
    }
  }

  /** splini: whole intervals up to the one that holds x, then the part of that one up to x. */
  method Splini(xa: array<real>, ya: array<real>, y2a: array<real>, x: real) returns (y: real)
    requires xa.Length == ya.Length == y2a.Length >= 2 && Increasing(xa[..])
    ensures x <= xa[0] ==> y == 0.0
    ensures forall k: nat | Brackets(xa[..], k, x) && x > xa[0] :: y == Integral(xa[..], ya[..], y2a[..], k, x)
    ensures forall c | x > xa[0] && OfCubic(xa[..], ya[..], y2a[..], c) ::
              y == c.AntiderivativeAt(x) - c.AntiderivativeAt(xa[0])
  {
    hide CubicArea;
    var n := xa.Length;
    ghost var xs, ys, ms := xa[..], ya[..], y2a[..];
    var yi := 0.0;
    var klo, khi := 0, 1;
    ghost var ended := false;
    while khi < n && x > xa[klo]
      invariant 0 <= klo < n && khi == klo + 1 && (klo > 0 ==> x > xa[0])
      invariant !ended ==> yi == AreaBefore(xs, ys, ms, klo) && (klo == 0 || (klo < n - 1 && x >= xa[klo]))
      invariant ended ==> klo > 0 && Brackets(xs, klo - 1, x) && (khi == n || x <= xa[klo])
      invariant ended ==> yi == AreaBefore(xs, ys, ms, klo - 1) + PieceArea(xs, ys, ms, klo - 1, x)
      decreases n - khi
    {
      var xx := x;
      if khi < n - 1 {
        if x < xa[khi] {
          xx := x;
        } else {
          xx := xa[khi];
        }
      }
      var h := xa[khi] - xa[klo];
      var a := (xa[khi] - xx) / h;
      var b := (xx - xa[klo]) / h;
      yi := yi + CubicArea(h, a, b, ya[klo], ya[khi], y2a[klo], y2a[khi]);
      ended := khi == n - 1 || x < xa[khi];
      klo := klo + 1;
      khi := khi + 1;
    }
    y := yi;
    if x > xa[0] {
      forall k: nat | Brackets(xs, k, x) ensures y == Integral(xs, ys, ms, k, x) {
        if ended {
          assert k == klo - 1;
        } else {
          assert x == xa[klo] && k == klo;
          AtLeftKnot(xs, ys, ms, klo);
        }
      }
      var k := if ended then klo - 1 else klo;
      assert Brackets(xs, k, x);
      forall c | OfCubic(xs, ys, ms, c) ensures y == c.AntiderivativeAt(x) - c.AntiderivativeAt(xa[0]) {
        IntegralOfCubic(xs, ys, ms, k, x, c);
      }
    }
  }
}
