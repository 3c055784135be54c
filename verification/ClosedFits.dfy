/** polyfit of mathlib.cpp for two, three and four points, where it uses closed formulas. */
module ClosedFits {
  import opened Vectors
  import opened Polynomials

  ghost predicate AllDifferent(xs: Vector)
  {
    forall i, j | 0 <= i < j < |xs| :: xs[i] != xs[j]
  }

  ghost predicate PassesThrough(a: Vector, x: Vector, y: Vector)
    requires |x| == |y|
  {
    |a| == |x| && forall r | 0 <= r < |x| :: Eval(a, x[r]) == y[r]
  }

  // ---------- chords of a cubic ----------

  function Cubic(a0: real, a1: real, a2: real, a3: real, t: real): real
  {
    a0 + t * (a1 + t * (a2 + t * a3))
  }

  lemma {:induction false} EvalIsCubic(a0: real, a1: real, a2: real, a3: real, t: real)
    ensures Eval([a0, a1], t) == Cubic(a0, a1, 0.0, 0.0, t)
    ensures Eval([a0, a1, a2], t) == Cubic(a0, a1, a2, 0.0, t)
    ensures Eval([a0, a1, a2, a3], t) == Cubic(a0, a1, a2, a3, t)
  {
    EvalPair(a0, a1, t);
    EvalPair(a1, a2, t);
    EvalPair(a2, a3, t);
    hide Eval;
    assert [a0] + [a1, a2] == [a0, a1, a2] && [a1] + [a2, a3] == [a1, a2, a3];
    assert [a0] + [a1, a2, a3] == [a0, a1, a2, a3];
    EvalMore(a0, [a1, a2], t);
    EvalMore(a1, [a2, a3], t);
    EvalMore(a0, [a1, a2, a3], t);
  }

  lemma {:induction false} EvalPair(a: real, b: real, t: real)
    ensures Eval([a, b], t) == a + t * b
  {
    EvalLast(b, t);
    assert [a] + [b] == [a, b];
    EvalMore(a, [b], t);
  }

  lemma {:induction false} EvalLast(a: real, t: real)
    ensures Eval([a], t) == a
  {
    assert [a][1..] == [];
  }

  lemma {:induction false} EvalMore(a: real, rest: Vector, t: real)
    ensures Eval([a] + rest, t) == a + t * Eval(rest, t)
  {
    assert ([a] + rest)[1..] == rest;
  }

  /** The slope of the chord from s to t. */
  function Slope(a1: real, a2: real, a3: real, s: real, t: real): real
  {
    a1 + a2 * (s + t) + a3 * (s * s + s * t + t * t)
  }

  lemma {:induction false} SlopeOfChord(a0: real, a1: real, a2: real, a3: real, s: real, t: real)
    ensures Cubic(a0, a1, a2, a3, t) - Cubic(a0, a1, a2, a3, s) == (t - s) * Slope(a1, a2, a3, s, t)
  {
    assert t * t - s * s == (t - s) * (s + t);
    assert t * t * t - s * s * s == (t - s) * (s * s + s * t + t * t);
    assert Cubic(a0, a1, a2, a3, t) == a0 + a1 * t + a2 * (t * t) + a3 * (t * t * t);
    assert Cubic(a0, a1, a2, a3, s) == a0 + a1 * s + a2 * (s * s) + a3 * (s * s * s);
  }

  lemma {:induction false} SlopesDiffer(a1: real, a2: real, a3: real, r: real, s: real, t: real)
    ensures Slope(a1, a2, a3, s, t) - Slope(a1, a2, a3, r, s) == (t - r) * (a2 + a3 * (r + s + t))
  {
  }

  lemma {:induction false} SameFactor(d: real, a: real, b: real)
    requires d != 0.0 && d * a == d * b
    ensures a == b
  {
  }

  /** A cubic through the first point whose first chord has the slope m01 and whose slopes rise by e. */
  lemma {:induction false} ThroughThree(
    x0: real, x1: real, x2: real, y0: real, y1: real, y2: real,
    a0: real, a1: real, a2: real, a3: real, m01: real, m12: real)
    requires Cubic(a0, a1, a2, a3, x0) == y0
    requires (x1 - x0) * m01 == y1 - y0 && (x2 - x1) * m12 == y2 - y1
    requires Slope(a1, a2, a3, x0, x1) == m01
    requires (x2 - x0) * (a2 + a3 * (x0 + x1 + x2)) == m12 - m01
    ensures Cubic(a0, a1, a2, a3, x1) == y1 && Cubic(a0, a1, a2, a3, x2) == y2
    ensures Slope(a1, a2, a3, x1, x2) == m12
  {
    hide Cubic, Slope;
    SlopeOfChord(a0, a1, a2, a3, x0, x1);
    SlopeOfChord(a0, a1, a2, a3, x1, x2);
    SlopesDiffer(a1, a2, a3, x0, x1, x2);
  }

  // ---------- the highest coefficient of a cubic ----------

  function Numerator(x0: real, x1: real, x2: real, x3: real, y0: real, y1: real, y2: real, y3: real): real
  {
    Combined(x1 - x0, x2 - x0, Inner(x1, x2, x3, y1, y2, y3), Outer(x0, x1, x2, y0, y1, y2), x1 - x3, x2 - x3)
  }

  function Combined(p: real, v: real, inner: real, outer: real, s: real, t: real): real
  {
    p * v * inner - outer * s * t
  }

  function Inner(x1: real, x2: real, x3: real, y1: real, y2: real, y3: real): real
  {
    y3 * (x2 - x1) + y2 * (x1 - x3) + y1 * (x3 - x2)
  }

  function Outer(x0: real, x1: real, x2: real, y0: real, y1: real, y2: real): real
  {
    (y1 - y0) * (x1 - x2) + (x1 - x0) * (y2 - y1)
  }

  function Denominator(x0: real, x1: real, x2: real, x3: real): real
  {
    (x1 - x0) * (x2 - x0)
    * (x1 * (x0 - x3) * (x1 * (x2 - x3) + x3 * x3 - x2 * x2) + x3 * x2 * (x0 * x2 + x3 * (x3 - x0 - x2)))
  }

  function SixProduct(a: real, b: real, c: real, d: real, e: real, f: real): real
  {
    a * b * (c * d * e * f)
  }

  lemma {:induction false} DenominatorFactors(x0: real, x1: real, x2: real, x3: real)
    ensures Denominator(x0, x1, x2, x3) == SixProduct(x1 - x0, x2 - x0, x2 - x1, x3 - x1, x3 - x2, x3 - x0)
  {
    assert x1 * (x0 - x3) * (x1 * (x2 - x3) + x3 * x3 - x2 * x2) + x3 * x2 * (x0 * x2 + x3 * (x3 - x0 - x2))
        == (x2 - x1) * (x3 - x1) * (x3 - x2) * (x3 - x0);
  }

  lemma {:induction false} FirstPart(q: real, r: real, y1: real, y3: real, m: real)
    ensures y3 * q + (y1 + m * q) * -r + y1 * (r - q) == q * (y3 - (y1 + m * r))
  {
  }

  lemma {:induction false} SecondPart(p: real, q: real, m: real, e: real)
    ensures m * p * -q + p * ((m + e * (p + q)) * q) == p * q * (p + q) * e
  {
  }

  lemma {:induction false} PartsTogether(p: real, q: real, r: real, w: real, e: real, rise: real)
    ensures p * (p + q) * (q * rise) - p * q * (p + q) * e * -r * -w == p * q * (p + q) * (rise - r * w * e)
  {
  }

  function Missed(p: real, q: real, v: real, r: real, w: real, m: real, e: real, rise: real): real
  {
    p * q * v * (rise - r * m - r * w * e)
  }

  lemma {:induction false} NumeratorIsMiss(
    x0: real, x1: real, x2: real, x3: real, y0: real, y1: real, y2: real, y3: real, m01: real, m12: real, e: real)
    requires (x1 - x0) * m01 == y1 - y0 && (x2 - x1) * m12 == y2 - y1 && (x2 - x0) * e == m12 - m01
    ensures Numerator(x0, x1, x2, x3, y0, y1, y2, y3)
         == Missed(x1 - x0, x2 - x1, x2 - x0, x3 - x1, x3 - x2, m12, e, y3 - y1)
  {
    hide Combined, Missed, Inner, Outer;
    InnerPart(x1, x2, x3, y1, y2, y3, m12);
    OuterPart(x0, x1, x2, y0, y1, y2, m01, m12, e);
    NumeratorByParts(x1 - x0, x2 - x1, x2 - x0, x3 - x1, x3 - x2, m12, e, y3 - y1,
                     Inner(x1, x2, x3, y1, y2, y3), Outer(x0, x1, x2, y0, y1, y2), x1 - x3, x2 - x3);
  }

  lemma {:induction false} InnerPart(
    x1: real, x2: real, x3: real, y1: real, y2: real, y3: real, m12: real)
    requires (x2 - x1) * m12 == y2 - y1
    ensures Inner(x1, x2, x3, y1, y2, y3) == (x2 - x1) * (y3 - y1 - m12 * (x3 - x1))
  {
    var q, r := x2 - x1, x3 - x1;
    FirstPart(q, r, y1, y3, m12);
    SameProduct(y2, -r, y1 + m12 * q, -r);
  }

  lemma {:induction false} OuterPart(
    x0: real, x1: real, x2: real, y0: real, y1: real, y2: real, m01: real, m12: real, e: real)
    requires (x1 - x0) * m01 == y1 - y0 && (x2 - x1) * m12 == y2 - y1 && (x2 - x0) * e == m12 - m01
    ensures Outer(x0, x1, x2, y0, y1, y2) == (x1 - x0) * (x2 - x1) * (x1 - x0 + (x2 - x1)) * e
  {
    var p, q := x1 - x0, x2 - x1;
    SecondPart(p, q, m01, e);
    SameProduct(y1 - y0, -q, m01 * p, -q);
    SameProduct(p, y2 - y1, p, (m01 + e * (p + q)) * q);
  }

  lemma {:induction false} NumeratorByParts(p: real, q: real, v: real, r: real, w: real, m: real, e: real, rise: real,
                                            inner: real, outer: real, s: real, t: real)
    requires v == p + q && s == -r && t == -w
    requires inner == q * (rise - m * r) && outer == p * q * (p + q) * e
    ensures Combined(p, v, inner, outer, s, t) == Missed(p, q, v, r, w, m, e, rise)
  {
    PartsTogether(p, q, r, w, e, rise - m * r);
  }

  /** The highest coefficient makes up for what the parabola through three points misses the fourth by. */
  lemma {:induction false} HighestCoefficient(
    x0: real, x1: real, x2: real, x3: real, y0: real, y1: real, y2: real, y3: real,
    m01: real, m12: real, e: real, a3: real)
    requires (x1 - x0) * m01 == y1 - y0 && (x2 - x1) * m12 == y2 - y1 && (x2 - x0) * e == m12 - m01
    requires x0 != x1 && x1 != x2 && x0 != x2
    requires Denominator(x0, x1, x2, x3) * a3 == Numerator(x0, x1, x2, x3, y0, y1, y2, y3)
    ensures (x3 - x1) * (m12 + (x3 - x2) * (e + a3 * (x3 - x0))) == y3 - y1
  {
    hide Numerator, Denominator, SixProduct, Missed;
    DenominatorFactors(x0, x1, x2, x3);
    NumeratorIsMiss(x0, x1, x2, x3, y0, y1, y2, y3, m01, m12, e);
    MissMadeUp(x1 - x0, x2 - x1, x2 - x0, x3 - x1, x3 - x2, x3 - x0, m12, e, a3, y3 - y1,
               Denominator(x0, x1, x2, x3), Numerator(x0, x1, x2, x3, y0, y1, y2, y3));
  }

  lemma {:induction false} MissMadeUp(
    p: real, q: real, v: real, r: real, w: real, z: real, m: real, e: real, a: real, rise: real, den: real, num: real)
    requires den == SixProduct(p, v, q, r, w, z) && num == Missed(p, q, v, r, w, m, e, rise)
    requires den * a == num && p != 0.0 && q != 0.0 && v != 0.0
    ensures r * (m + w * (e + a * z)) == rise
  {
    FactorsRegrouped(p, v, q, r, w, z, a);
    NonzeroProduct(p * q, v);
    NonzeroProduct(p, q);
    SameFactor(p * q * v, r * w * z * a, rise - r * m - r * w * e);
    Expanded(r, w, z, m, e, a);
  }

  lemma {:induction false} FactorsRegrouped(p: real, v: real, q: real, r: real, w: real, z: real, a: real)
    ensures p * v * (q * r * w * z) * a == p * q * v * (r * w * z * a)
  {
  }

  lemma {:induction false} Expanded(r: real, w: real, z: real, m: real, e: real, a: real)
    ensures r * (m + w * (e + a * z)) == r * m + r * w * e + r * w * z * a
  {
  }

  lemma {:induction false} DenominatorZero(x0: real, x1: real, x2: real, x3: real)
    ensures Denominator(x0, x1, x2, x3) != 0.0
       <==> x0 != x1 && x0 != x2 && x0 != x3 && x1 != x2 && x1 != x3 && x2 != x3
  {
    hide Denominator, SixProduct;
    DenominatorFactors(x0, x1, x2, x3);
    SixFactors(x1 - x0, x2 - x0, x2 - x1, x3 - x1, x3 - x2, x3 - x0);
  }

  lemma {:induction false} SixFactors(a: real, b: real, c: real, d: real, e: real, f: real)
    ensures SixProduct(a, b, c, d, e, f) != 0.0
       <==> a != 0.0 && b != 0.0 && c != 0.0 && d != 0.0 && e != 0.0 && f != 0.0
  {
    NonzeroProduct(a * b, c * d * e * f);
    NonzeroProduct(a, b);
    NonzeroProduct(c * d * e, f);
    NonzeroProduct(c * d, e);
    NonzeroProduct(c, d);
  }

  // ---------- the code ----------

  lemma {:induction false} DifferentPairs(x: Vector)
    requires 2 <= |x| <= 4
    ensures AllDifferent(x) <==>
      && x[0] != x[1]
      && (|x| > 2 ==> x[0] != x[2] && x[1] != x[2])
      && (|x| > 3 ==> x[0] != x[3] && x[1] != x[3] && x[2] != x[3])
  {
  }

  method FitTwo(x: Vector, y: Vector) returns (finite: bool, a: Vector)
    requires |x| == |y| == 2
    ensures finite <==> AllDifferent(x)
    ensures finite ==> PassesThrough(a, x, y)
  {
    hide Eval;
    DifferentPairs(x);
    if x[1] - x[0] == 0.0 {
      return false, [];
    }
    var a1 := (y[1] - y[0]) / (x[1] - x[0]);
    var a0 := y[1] - a1 * x[1];
    Quotient(y[1] - y[0], x[1] - x[0]);
    EvalPair(a0, a1, x[0]);
    EvalPair(a0, a1, x[1]);
    finite, a := true, [a0, a1];
  }

  method FitThree(x: Vector, y: Vector) returns (finite: bool, a: Vector)
    requires |x| == |y| == 3
    ensures finite <==> AllDifferent(x)
    ensures finite ==> PassesThrough(a, x, y)
  {
    hide Eval;
    DifferentPairs(x);
    if x[1] - x[0] == 0.0 || x[2] - x[1] == 0.0 || x[2] - x[0] == 0.0 {
      return false, [];
    }
    var a2 := ((y[0] - y[1]) / (x[1] - x[0]) + (y[2] - y[1]) / (x[2] - x[1])) / (x[2] - x[0]);
    var a1 := (y[0] - y[1]) / (x[0] - x[1]) - a2 * (x[1] + x[0]);
    var a0 := -(x[0] * (a1 + a2 * x[0]) - y[0]);
    ParabolaPasses(x[0], x[1], x[2], y[0], y[1], y[2], a0, a1, a2);
    EvalIsCubic(a0, a1, a2, 0.0, x[0]);
    EvalIsCubic(a0, a1, a2, 0.0, x[1]);
    EvalIsCubic(a0, a1, a2, 0.0, x[2]);
    finite, a := true, [a0, a1, a2];
  }

  lemma {:induction false} ParabolaPasses(
    x0: real, x1: real, x2: real, y0: real, y1: real, y2: real, a0: real, a1: real, a2: real)
    requires x0 != x1 && x1 != x2 && x0 != x2
    requires a2 == ((y0 - y1) / (x1 - x0) + (y2 - y1) / (x2 - x1)) / (x2 - x0)
    requires a1 == (y0 - y1) / (x0 - x1) - a2 * (x1 + x0)
    requires a0 == -(x0 * (a1 + a2 * x0) - y0)
    ensures Cubic(a0, a1, a2, 0.0, x0) == y0
    ensures Cubic(a0, a1, a2, 0.0, x1) == y1
    ensures Cubic(a0, a1, a2, 0.0, x2) == y2
  {
    var n01, m12 := (y0 - y1) / (x1 - x0), (y2 - y1) / (x2 - x1);
    Quotient(y0 - y1, x1 - x0);
    QuotientOfNegated(y0 - y1, x1 - x0, n01);
    Quotient(y2 - y1, x2 - x1);
    Quotient(n01 + m12, x2 - x0);
    NegatedFactor(x1 - x0, n01, y0 - y1);
    ThroughThree(x0, x1, x2, y0, y1, y2, a0, a1, a2, 0.0, -n01, m12);
  }

  function A3Of(x0: real, x1: real, x2: real, x3: real, y0: real, y1: real, y2: real, y3: real): real
    requires Denominator(x0, x1, x2, x3) != 0.0
  {
    Numerator(x0, x1, x2, x3, y0, y1, y2, y3) / Denominator(x0, x1, x2, x3)
  }

  function A2Of(x0: real, x1: real, x2: real, y0: real, y1: real, y2: real, a3: real): real
    requires x0 != x1 && x1 != x2 && x0 != x2
  {
    ((y1 - y0) / (x0 - x1) + (y2 - y1) / (x2 - x1)) / (x2 - x0) - a3 * (x1 + x2 + x0)
  }

  function A1Of(x0: real, x1: real, y0: real, y1: real, a2: real, a3: real): real
    requires x0 != x1
  {
    (y0 - y1 + a2 * (x1 * x1 - x0 * x0) + a3 * (x1 * x1 * x1 - x0 * x0 * x0)) / (x0 - x1)
  }

  function A0Of(x0: real, y0: real, a1: real, a2: real, a3: real): real
  {
    -(x0 * (a1 + x0 * (a2 + a3 * x0)) - y0)
  }

  method FitFour(x: Vector, y: Vector) returns (finite: bool, a: Vector)
    requires |x| == |y| == 4
    ensures finite <==> AllDifferent(x)
    ensures finite ==> PassesThrough(a, x, y)
  {
    hide Eval, Cubic, Numerator, Denominator, A3Of, A2Of, A1Of, A0Of;
    DifferentPairs(x);
    DenominatorZero(x[0], x[1], x[2], x[3]);
    if Denominator(x[0], x[1], x[2], x[3]) == 0.0 {
      return false, [];
    }
    var a3 := A3Of(x[0], x[1], x[2], x[3], y[0], y[1], y[2], y[3]);
    var a2 := A2Of(x[0], x[1], x[2], y[0], y[1], y[2], a3);
    var a1 := A1Of(x[0], x[1], y[0], y[1], a2, a3);
    var a0 := A0Of(x[0], y[0], a1, a2, a3);
    CubicPasses(x[0], x[1], x[2], x[3], y[0], y[1], y[2], y[3], a0, a1, a2, a3);
    forall r | 0 <= r < 4 ensures Eval([a0, a1, a2, a3], x[r]) == y[r] {
      EvalIsCubic(a0, a1, a2, a3, x[r]);
    }
    finite, a := true, [a0, a1, a2, a3];
  }

  lemma {:induction false} CubicPasses(
    x0: real, x1: real, x2: real, x3: real, y0: real, y1: real, y2: real, y3: real,
    a0: real, a1: real, a2: real, a3: real)
    requires Denominator(x0, x1, x2, x3) != 0.0 && x0 != x1 && x1 != x2 && x0 != x2
    requires a3 == A3Of(x0, x1, x2, x3, y0, y1, y2, y3) && a2 == A2Of(x0, x1, x2, y0, y1, y2, a3)
    requires a1 == A1Of(x0, x1, y0, y1, a2, a3) && a0 == A0Of(x0, y0, a1, a2, a3)
    ensures Cubic(a0, a1, a2, a3, x0) == y0 && Cubic(a0, a1, a2, a3, x1) == y1
    ensures Cubic(a0, a1, a2, a3, x2) == y2 && Cubic(a0, a1, a2, a3, x3) == y3
  {
    hide Numerator, Denominator, Slope, Cubic, A3Of, A2Of, A1Of, A0Of;
    var m01, m12 := (y1 - y0) / (x1 - x0), (y2 - y1) / (x2 - x1);
    var e := (m12 - m01) / (x2 - x0);
    Quotient(y1 - y0, x1 - x0);
    Quotient(y2 - y1, x2 - x1);
    Quotient(m12 - m01, x2 - x0);
    A3Is(x0, x1, x2, x3, y0, y1, y2, y3, a3);
    A2Is(x0, x1, x2, y0, y1, y2, a2, a3, m01, m12, e);
    FirstSlope(x0, x1, y0, y1, a1, a2, a3, m01);
    ThroughFirst(x0, y0, a0, a1, a2, a3);
    LastRise(x0, x1, x2, x3, a2, a3, e);
    ThroughThree(x0, x1, x2, y0, y1, y2, a0, a1, a2, a3, m01, m12);
    HighestCoefficient(x0, x1, x2, x3, y0, y1, y2, y3, m01, m12, e, a3);
    SlopeOfChord(a0, a1, a2, a3, x1, x3);
    SlopesDiffer(a1, a2, a3, x2, x1, x3);
    SlopeBothWays(a1, a2, a3, x1, x2);
    Rises(Cubic(a0, a1, a2, a3, x3), y1, x3 - x1, Slope(a1, a2, a3, x1, x3),
          m12 + (x3 - x2) * (e + a3 * (x3 - x0)), y3 - y1);
  }

  lemma {:induction false} Rises(c: real, y: real, u: real, slope: real, k: real, rise: real)
    requires c - y == u * slope && slope == k && u * k == rise
    ensures c - y == rise
  {
  }

  lemma {:induction false} A3Is(
    x0: real, x1: real, x2: real, x3: real, y0: real, y1: real, y2: real, y3: real, a3: real)
    requires Denominator(x0, x1, x2, x3) != 0.0 && a3 == A3Of(x0, x1, x2, x3, y0, y1, y2, y3)
    ensures Denominator(x0, x1, x2, x3) * a3 == Numerator(x0, x1, x2, x3, y0, y1, y2, y3)
  {
    hide Numerator, Denominator;
    Quotient(Numerator(x0, x1, x2, x3, y0, y1, y2, y3), Denominator(x0, x1, x2, x3));
  }

  lemma {:induction false} A2Is(
    x0: real, x1: real, x2: real, y0: real, y1: real, y2: real, a2: real, a3: real, m01: real, m12: real, e: real)
    requires x0 != x1 && x1 != x2 && x0 != x2 && a2 == A2Of(x0, x1, x2, y0, y1, y2, a3)
    requires (x1 - x0) * m01 == y1 - y0 && (x2 - x1) * m12 == y2 - y1 && (x2 - x0) * e == m12 - m01
    ensures a2 == e - a3 * (x1 + x2 + x0)
  {
    QuotientIs(y2 - y1, x2 - x1, m12);
    QuotientOfNegated(y1 - y0, x1 - x0, m01);
    QuotientIs(-m01 + m12, x2 - x0, e);
  }

  lemma {:induction false} QuotientIs(n: real, d: real, q: real)
    requires d != 0.0 && d * q == n
    ensures n / d == q
  {
  }

  lemma {:induction false} NegatedFactor(d: real, q: real, n: real)
    requires d * q == n
    ensures d * -q == -n
  {
  }

  lemma {:induction false} QuotientOfNegated(n: real, d: real, q: real)
    requires d != 0.0 && d * q == n
    ensures n / -d == -q
  {
    assert -d * -q == n;
  }

  lemma {:induction false} ThroughFirst(x0: real, y0: real, a0: real, a1: real, a2: real, a3: real)
    requires a0 == A0Of(x0, y0, a1, a2, a3)
    ensures Cubic(a0, a1, a2, a3, x0) == y0
  {
  }

  lemma {:induction false} FirstSlope(x0: real, x1: real, y0: real, y1: real, a1: real, a2: real, a3: real, m01: real)
    requires x0 != x1 && (x1 - x0) * m01 == y1 - y0 && a1 == A1Of(x0, x1, y0, y1, a2, a3)
    ensures Slope(a1, a2, a3, x0, x1) == m01
  {
    Quotient(y0 - y1 + a2 * (x1 * x1 - x0 * x0) + a3 * (x1 * x1 * x1 - x0 * x0 * x0), x0 - x1);
    assert (x1 - x0) * Slope(a1, a2, a3, x0, x1)
        == (x1 - x0) * a1 + a2 * (x1 * x1 - x0 * x0) + a3 * (x1 * x1 * x1 - x0 * x0 * x0);
    SameFactor(x1 - x0, Slope(a1, a2, a3, x0, x1), m01);
  }

  lemma {:induction false} LastRise(x0: real, x1: real, x2: real, x3: real, a2: real, a3: real, e: real)
    requires a2 == e - a3 * (x1 + x2 + x0)
    ensures (x2 - x0) * (a2 + a3 * (x0 + x1 + x2)) == (x2 - x0) * e
    ensures (x3 - x2) * (a2 + a3 * (x2 + x1 + x3)) == (x3 - x2) * (e + a3 * (x3 - x0))
  {
    assert a2 + a3 * (x0 + x1 + x2) == e;
    assert a2 + a3 * (x2 + x1 + x3) == e + a3 * (x3 - x0);
  }

  lemma {:induction false} SlopeBothWays(a1: real, a2: real, a3: real, s: real, t: real)
    ensures Slope(a1, a2, a3, s, t) == Slope(a1, a2, a3, t, s)
  {
  }
}
