/** polyfit and evaluate_poly of mathlib.cpp, over exact reals. */
module Polyfit {
  import opened Vectors
  import opened LinearSolve
  import opened Solvability
  import opened Polynomials
  import opened SlidingFit
  import opened ClosedFits

  function Vandermonde(xs: Vector): (m: Matrix)
    ensures Square(m, |xs|) && forall r | 0 <= r < |xs| :: m[r] == Powers(xs[r], |xs|)
  {
    seq(|xs|, r requires 0 <= r < |xs| => Powers(xs[r], |xs|))
  }

  /** evaluate_poly: from the highest coefficient down; fewer than two coefficients give 0 whatever they are. */
  method EvaluatePoly(x: real, parms: Vector) returns (result: real)
    requires |parms| < 65536
    ensures result == if |parms| < 2 then 0.0 else Eval(parms, x)
  {
    if |parms| < 2 {
      return 0.0;
    }
    result := parms[|parms| - 1];
    OneCoefficient(parms, x);
    var i := |parms| - 1;
    while i > 0
      invariant 0 <= i < |parms| && result == Eval(parms[i..], x)
    {
      hide Eval;
      i := i - 1;
      HornerStep(parms, i + 1, x, result, parms[i]);
      result := result * x;
      result := result + parms[i];
    }
    assert parms[0..] == parms;
  }

  lemma {:induction false} OneCoefficient(p: Vector, x: real)
    requires p != []
    ensures Eval(p[|p| - 1..], x) == p[|p| - 1]
  {
    assert p[|p| - 1..][1..] == [];
  }

  lemma {:induction false} DistinctCount(xs: Vector)
    ensures |Distinct(xs)| <= |xs|
    ensures |Distinct(xs)| == |xs| <==> AllDifferent(xs)
  {
    if xs != [] {
      var n := |xs| - 1;
      var front := xs[..n];
      DistinctCount(front);
      DistinctSnoc(xs);
      DistinctMembers(front);
      if AllDifferent(xs) {
        forall i, j | 0 <= i < j < n ensures front[i] != front[j] {
          assert xs[i] != xs[j];
        }
      }
      if AllDifferent(front) && xs[n] !in Distinct(front) {
        forall i, j | 0 <= i < j < |xs| ensures xs[i] != xs[j] {
          assert j < n ==> front[i] != front[j];
          assert front[i] == xs[i];
        }
      }
      if xs[n] in Distinct(front) {
        var i :| 0 <= i < n && front[i] == xs[n];
        assert xs[i] == xs[n];
      }
    }
  }

  lemma {:induction false} VandermondeRegular(xs: Vector)
    requires AllDifferent(xs)
    ensures LeadingRegular(Vandermonde(xs))
  {
    hide Eval, Dot, Distinct;
    var m := Vandermonde(xs);
    forall v: Vector | InLeadingKernel(m, v) ensures IsZero(v) {
      var points := xs[..|v|];
      assert AllDifferent(points);
      DistinctCount(points);
      DistinctMembers(points);
      forall t | t in Distinct(points) ensures Eval(v, t) == 0.0 {
        var r :| 0 <= r < |v| && points[r] == t;
        EvalIsDot(v, t);
        assert m[r][..|v|] == Powers(t, |v|);
      }
      TooManyRoots(v, Distinct(points));
    }
  }

  lemma {:induction false} RepeatedPointSingular(xs: Vector)
    requires xs != [] && !AllDifferent(xs)
    ensures !Computable(Vandermonde(xs))
  {
    hide Eval, Dot, Distinct, Computable;
    var m := Vandermonde(xs);
    DistinctCount(xs);
    DistinctMembers(xs);
    var v := VanishingPolynomial(Distinct(xs), |xs|);
    forall r | 0 <= r < |xs| ensures Dot(m[r], v) == 0.0 {
      EvalIsDot(v, xs[r]);
      assert xs[r] in Distinct(xs);
    }
    if Computable(m) {
      ComputableKernel(m, v);
    }
  }

  /**
   polyfit. The fit is finite exactly when no two points share their x, and then the polynomial passes
   through every point; by FitIsUnique no other of its size does.
  */
  method Fit(x: Vector, y: Vector) returns (finite: bool, a: Vector)
    requires 1 <= |x| == |y| < 65536
    ensures finite <==> AllDifferent(x)
    ensures finite ==> PassesThrough(a, x, y)
  {
    match |x|
    case 2 => finite, a := FitTwo(x, y);
    case 3 => finite, a := FitThree(x, y);
    case 4 => finite, a := FitFour(x, y);
    case _ => finite, a := FitMany(x, y);
  }

  /** The default case: one point, or five and more. */
  method FitMany(x: Vector, y: Vector) returns (finite: bool, a: Vector)
    requires 1 <= |x| == |y| < 65536
    ensures finite <==> AllDifferent(x)
    ensures finite ==> PassesThrough(a, x, y)
  {
    hide Computable, Dot, Eval, Pow;
    var n := |x|;
    var dx: Matrix := [];
    for r := 0 to n
      invariant dx == Vandermonde(x)[..r]
    {
      var row: Vector := [];
      var power := 1.0;
      PowStep(x[r], 0);
      for c := 0 to n
        invariant row == Powers(x[r], n)[..c] && power == Pow(x[r], c)
      {
        row := row + [power];
        PowStep(x[r], c);
        power := power * x[r];
      }
      assert row == Vandermonde(x)[r];
      dx := dx + [row];
    }
    assert dx == Vandermonde(x);
    finite, a := Multisolve(dx, y);
    if AllDifferent(x) {
      VandermondeRegular(x);
      RegularIsComputable(dx);
    } else {
      RepeatedPointSingular(x);
    }
    if finite {
      forall r | 0 <= r < n ensures Eval(a, x[r]) == y[r] {
        EvalIsDot(a, x[r]);
        assert Dot(dx[r], a) == y[r];
      }
    }
  }

  /** No other polynomial of the same size passes through the points. */
  lemma {:induction false} FitIsUnique(a: Vector, b: Vector, x: Vector, y: Vector)
    requires |x| == |y| && AllDifferent(x) && PassesThrough(a, x, y) && PassesThrough(b, x, y)
    ensures a == b
  {
    hide Eval, Distinct;
    var difference := Plus(a, Scale(-1.0, b));
    DistinctCount(x);
    DistinctMembers(x);
    forall t | t in Distinct(x) ensures Eval(difference, t) == 0.0 {
      var r :| 0 <= r < |x| && x[r] == t;
      EvalPlus(a, Scale(-1.0, b), t);
      EvalScale(-1.0, b, t);
    }
    TooManyRoots(difference, Distinct(x));
    forall i | 0 <= i < |a| ensures a[i] == b[i] {
      assert difference[i] == a[i] + -1.0 * b[i];
    }
  }
}
