/** The equations of a spline have one solution only. */
module SplineUniqueness {
  import opened CubicSpline
  import opened SplineEvaluation

  function Abs(a: real): real
  {
    if a < 0.0 then -a else a
  }

  function Gap(m: seq<real>, w: seq<real>, i: nat): real
    requires i < |m| && i < |w|
  {
    m[i] - w[i]
  }

  lemma {:induction false} ProductSign(h: real, a: real)
    requires h > 0.0
    ensures a >= 0.0 ==> h * a >= 0.0
    ensures a > 0.0 ==> h * a > 0.0
    ensures a <= 0.0 ==> h * a <= 0.0
    ensures a < 0.0 ==> h * a < 0.0
  {
  }

  lemma {:induction false} EquationDifference(h: real, g: real, a: real, b: real, c: real, d: real, e: real, f: real)
    requires h * a + 2.0 * (h + g) * b + g * c == h * d + 2.0 * (h + g) * e + g * f
    ensures h * ((a - d) + (b - e)) + h * (b - e) + g * (b - e) + g * ((b - e) + (c - f)) == 0.0
  {
  }

  /** The middle term outweighs its neighbours, so that a gap grows from knot to knot. */
  lemma {:induction false} GapGrows(h: real, g: real, a: real, b: real, c: real)
    requires h > 0.0 && g > 0.0 && Abs(a) <= Abs(b)
    requires h * (a + b) + h * b + g * b + g * (b + c) == 0.0
    ensures Abs(b) <= Abs(c)
  {
    ProductSign(h, a + b);
    ProductSign(h, b);
    ProductSign(g, b);
    ProductSign(g, b + c);
  }

  lemma {:induction false} EndGap(h: real, a: real, b: real, c: real, d: real)
    requires h > 0.0 && h * (2.0 * a + b) == h * (2.0 * c + d)
    ensures 2.0 * (a - c) + (b - d) == 0.0
  {
    assert h * ((2.0 * a + b) - (2.0 * c + d)) == 0.0;
    ProductSign(h, (2.0 * a + b) - (2.0 * c + d));
  }

  lemma {:induction false} GapsGrow(x: seq<real>, y: seq<real>, yp1: real, ypn: real, m: seq<real>,
      w: seq<real>, i: nat)
    requires |x| == |y| == |m| == |w| >= 2 && Increasing(x) && i < |x| - 1
    requires SplineSolution(x, y, yp1, ypn, m) && SplineSolution(x, y, yp1, ypn, w)
    ensures Abs(Gap(m, w, i)) <= Abs(Gap(m, w, i + 1))
  {
    hide Chord;
    if i == 0 {
      if yp1 <= NATURAL {
        EndGap(Width(x, 0), m[0], m[1], w[0], w[1]);
      }
    } else {
      GapsGrow(x, y, yp1, ypn, m, w, i - 1);
      assert SmoothAt(x, y, m, i) && SmoothAt(x, y, w, i);
      EquationDifference(Width(x, i - 1), Width(x, i), m[i - 1], m[i], m[i + 1], w[i - 1], w[i], w[i + 1]);
      GapGrows(Width(x, i - 1), Width(x, i), Gap(m, w, i - 1), Gap(m, w, i), Gap(m, w, i + 1));
    }
  }

  lemma {:induction false} NoGap(x: seq<real>, y: seq<real>, yp1: real, ypn: real, m: seq<real>, w: seq<real>, i: nat)
    requires |x| == |y| == |m| == |w| >= 2 && Increasing(x) && i < |x|
    requires SplineSolution(x, y, yp1, ypn, m) && SplineSolution(x, y, yp1, ypn, w)
    ensures Gap(m, w, i) == 0.0
    decreases |x| - i
  {
    var n := |x|;
    if i == n - 1 {
      GapsGrow(x, y, yp1, ypn, m, w, n - 2);
      if ypn <= NATURAL {
        hide Chord;
        EndGap(Width(x, n - 2), m[n - 1], m[n - 2], w[n - 1], w[n - 2]);
      }
    } else {
      NoGap(x, y, yp1, ypn, m, w, i + 1);
      GapsGrow(x, y, yp1, ypn, m, w, i);
    }
  }

  /** There is one spline through given points with given ends, so the one that the sweep finds is it. */
  lemma {:induction false} SplineIsUnique(x: seq<real>, y: seq<real>, yp1: real, ypn: real, m: seq<real>, w: seq<real>)
    requires |x| == |y| == |m| == |w| >= 2 && Increasing(x)
    requires SplineSolution(x, y, yp1, ypn, m) && SplineSolution(x, y, yp1, ypn, w)
    ensures m == w
  {
    forall i | 0 <= i < |x| ensures m[i] == w[i] {
      NoGap(x, y, yp1, ypn, m, w, i);
    }
  }

  // ---------- cubics ----------

  lemma {:induction false} ChordOfCubic(x: seq<real>, y: seq<real>, c: CubicForm, k: nat)
    requires |x| == |y| && k + 1 < |x| && x[k] < x[k + 1] && y[k] == c.At(x[k]) && y[k + 1] == c.At(x[k + 1])
    ensures var u, h := x[k], Width(x, k);
            Chord(x, y, k) == c.c1 + c.c2 * (2.0 * u + h) + c.c3 * (3.0 * u * u + 3.0 * u * h + h * h)
  {
    hide CubicForm.At;
    var u, h := x[k], x[k + 1] - x[k];
    Cancel(y[k + 1] - y[k], h);
    assert u + h == x[k + 1];
    CubicChord(c, u, h, Chord(x, y, k));
  }

  lemma {:induction false} CubicSmooth(c: CubicForm, u: real, h: real, g: real)
    ensures var v := u + h;
            var left := c.c1 + c.c2 * (2.0 * u + h) + c.c3 * (3.0 * u * u + 3.0 * u * h + h * h);
            var right := c.c1 + c.c2 * (2.0 * v + g) + c.c3 * (3.0 * v * v + 3.0 * v * g + g * g);
            h * c.CurvatureAt(u) + 2.0 * (h + g) * c.CurvatureAt(v) + g * c.CurvatureAt(v + g) == 6.0 * (right - left)
  {
  }

  lemma {:induction false} CubicEnds(c: CubicForm, u: real, h: real)
    ensures var chord := c.c1 + c.c2 * (2.0 * u + h) + c.c3 * (3.0 * u * u + 3.0 * u * h + h * h);
            && h * (2.0 * c.CurvatureAt(u) + c.CurvatureAt(u + h)) == 6.0 * (chord - c.SlopeAt(u))
            && h * (c.CurvatureAt(u) + 2.0 * c.CurvatureAt(u + h)) == 6.0 * (c.SlopeAt(u + h) - chord)
  {
  }

  function Curvatures(x: seq<real>, c: CubicForm): (m: seq<real>)
    ensures |m| == |x| && forall i | 0 <= i < |x| :: m[i] == c.CurvatureAt(x[i])
  {
    seq(|x|, i requires 0 <= i < |x| => c.CurvatureAt(x[i]))
  }

  ghost predicate OnCubic(x: seq<real>, y: seq<real>, c: CubicForm)
  {
    |x| == |y| >= 2 && Increasing(x) && forall i | 0 <= i < |x| :: y[i] == c.At(x[i])
  }

  lemma {:induction false} CubicSmoothAt(x: seq<real>, y: seq<real>, c: CubicForm, i: nat)
    requires OnCubic(x, y, c) && 1 <= i < |x| - 1
    ensures SmoothAt(x, y, Curvatures(x, c), i)
  {
    hide Chord, CubicForm.At, CubicForm.CurvatureAt;
    var u, h, g := x[i - 1], Width(x, i - 1), Width(x, i);
    ChordOfCubic(x, y, c, i - 1);
    ChordOfCubic(x, y, c, i);
    assert x[i] == u + h && x[i + 1] == u + h + g;
    CubicSmooth(c, u, h, g);
  }

  lemma {:induction false} CubicAtEnds(x: seq<real>, y: seq<real>, c: CubicForm)
    requires OnCubic(x, y, c)
    requires c.SlopeAt(x[0]) <= NATURAL && c.SlopeAt(x[|x| - 1]) <= NATURAL
    ensures LeftEnd(x, y, Curvatures(x, c), c.SlopeAt(x[0]))
    ensures RightEnd(x, y, Curvatures(x, c), c.SlopeAt(x[|x| - 1]))
  {
    hide Chord, CubicForm.At, CubicForm.CurvatureAt, CubicForm.SlopeAt;
    var n := |x|;
    ChordOfCubic(x, y, c, 0);
    assert x[1] == x[0] + Width(x, 0);
    CubicEnds(c, x[0], Width(x, 0));
    ChordOfCubic(x, y, c, n - 2);
    assert x[n - 1] == x[n - 2] + Width(x, n - 2);
    CubicEnds(c, x[n - 2], Width(x, n - 2));
  }

  lemma {:induction false} CubicSolves(x: seq<real>, y: seq<real>, c: CubicForm)
    requires OnCubic(x, y, c)
    requires c.SlopeAt(x[0]) <= NATURAL && c.SlopeAt(x[|x| - 1]) <= NATURAL
    ensures SplineSolution(x, y, c.SlopeAt(x[0]), c.SlopeAt(x[|x| - 1]), Curvatures(x, c))
  {
    hide SmoothAt, LeftEnd, RightEnd, Chord;
    CubicAtEnds(x, y, c);
    forall i | 1 <= i < |x| - 1 ensures SmoothAt(x, y, Curvatures(x, c), i) {
      CubicSmoothAt(x, y, c, i);
    }
  }

  /** The spline through points of a cubic, with the slopes of the cubic at the ends, is the cubic: spline finds its
      second derivatives, and with them splint its values and splini its integrals. */
  lemma {:induction false} CubicIsItsSpline(x: seq<real>, y: seq<real>, m: seq<real>, c: CubicForm, k: nat, t: real)
    requires |m| == |x| && OnCubic(x, y, c)
    requires c.SlopeAt(x[0]) <= NATURAL && c.SlopeAt(x[|x| - 1]) <= NATURAL
    requires SplineSolution(x, y, c.SlopeAt(x[0]), c.SlopeAt(x[|x| - 1]), m) && k + 1 < |x|
    ensures forall i | 0 <= i < |x| :: m[i] == c.CurvatureAt(x[i])
    ensures Piece(x, y, m, k, t) == c.At(t)
    ensures Integral(x, y, m, k, t) == c.AntiderivativeAt(t) - c.AntiderivativeAt(x[0])
  {
    hide SplineSolution, Piece, Integral, CubicForm.At, CubicForm.CurvatureAt, CubicForm.SlopeAt,
         CubicForm.AntiderivativeAt;
    CubicSolves(x, y, c);
    SplineIsUnique(x, y, c.SlopeAt(x[0]), c.SlopeAt(x[|x| - 1]), m, Curvatures(x, c));
    assert OfCubic(x, y, m, c);
    PieceOfCubic(x, y, m, k, t, c);
    IntegralOfCubic(x, y, m, k, t, c);
  }
}
