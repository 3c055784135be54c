/** The normal equations of a least squares fit: what solving them achieves and when they can be solved. */
module LeastSquares {
  import opened Vectors
  import opened LinearSolve

  /** Columns of equal length. */
  ghost predicate Columns(c: seq<Vector>, m: nat)
  {
    forall j | 0 <= j < |c| :: |c[j]| == m
  }

  /** v[0] * c[0] + v[1] * c[1] + ... */
  function Combine(c: seq<Vector>, v: Vector, m: nat): (r: Vector)
    requires |v| <= |c| && Columns(c, m)
    ensures |r| == m
  {
    if v == [] then ZeroVector(m)
    else Plus(Combine(c, v[..|v| - 1], m), Scale(v[|v| - 1], c[|v| - 1]))
  }

  function Gram(c: seq<Vector>, m: nat): (x: Matrix)
    requires Columns(c, m)
    ensures Square(x, |c|)
    ensures forall j, k | 0 <= j < |c| && 0 <= k < |c| :: x[j][k] == Dot(c[j], c[k])
  {
    seq(|c|, j requires 0 <= j < |c| => seq(|c|, k requires 0 <= k < |c| => Dot(c[j], c[k])))
  }

  function Projections(c: seq<Vector>, y: Vector): (r: Vector)
    requires Columns(c, |y|)
    ensures |r| == |c| && forall j | 0 <= j < |c| :: r[j] == Dot(c[j], y)
  {
    seq(|c|, j requires 0 <= j < |c| => Dot(c[j], y))
  }

  function Residual(c: seq<Vector>, y: Vector, v: Vector): (r: Vector)
    requires |v| <= |c| && Columns(c, |y|)
    ensures |r| == |y|
  {
    Plus(y, Scale(-1.0, Combine(c, v, |y|)))
  }

  lemma {:induction false} DotCombineStep(w: Vector, c: seq<Vector>, v: Vector, m: nat)
    requires 1 <= |v| <= |c| && Columns(c, m) && |w| == m
    ensures var n := |v| - 1;
            Dot(w, Combine(c, v, m)) == Dot(w, Combine(c, v[..n], m)) + v[n] * Dot(w, c[n])
  {
    hide Dot, Plus, Scale, Combine;
    CombineLast(c, v, m);
    var n := |v| - 1;
    DotPlus(w, Combine(c, v[..n], m), Scale(v[n], c[n]));
    DotScale(w, v[n], c[n]);
  }

  lemma {:induction false} ProjectionsStep(w: Vector, c: seq<Vector>, v: Vector)
    requires 1 <= |v| <= |c| && Columns(c, |w|)
    ensures var n := |v| - 1;
            var p := Projections(c, w);
            Dot(p[..n + 1], v) == Dot(p[..n], v[..n]) + v[n] * Dot(w, c[n])
  {
    hide Dot, Projections;
    var n := |v| - 1;
    var p := Projections(c, w);
    DotLast(p[..n + 1], v);
    assert p[..n + 1][..n] == p[..n];
    DotComm(w, c[n]);
    SameProduct(p[..n + 1][n], v[n], Dot(w, c[n]), v[n]);
  }

  lemma {:induction false} DotCombine(w: Vector, c: seq<Vector>, v: Vector, m: nat)
    requires |v| <= |c| && Columns(c, m) && |w| == m
    ensures Dot(w, Combine(c, v, m)) == Dot(Projections(c, w)[..|v|], v)
    decreases |v|
  {
    if v == [] {
      DotZero(w, ZeroVector(m));
    } else {
      hide Dot, Combine, Projections;
      DotCombine(w, c, v[..|v| - 1], m);
      DotCombineStep(w, c, v, m);
      ProjectionsStep(w, c, v);
    }
  }

  lemma {:induction false} CombineLast(c: seq<Vector>, v: Vector, m: nat)
    requires 1 <= |v| <= |c| && Columns(c, m)
    ensures var n := |v| - 1;
            Combine(c, v, m) == Plus(Combine(c, v[..n], m), Scale(v[n], c[n]))
  {
  }

  lemma {:induction false} DotLast(a: Vector, b: Vector)
    requires |a| == |b| >= 1
    ensures Dot(a, b) == Dot(a[..|a| - 1], b[..|b| - 1]) + a[|a| - 1] * b[|b| - 1]
  {
  }

  lemma {:induction false} GramRow(c: seq<Vector>, m: nat, j: nat)
    requires Columns(c, m) && j < |c|
    ensures Gram(c, m)[j] == Projections(c, c[j])
  {
    forall k | 0 <= k < |c| ensures Gram(c, m)[j][k] == Projections(c, c[j])[k] {
      DotComm(c[j], c[k]);
    }
  }

  /** A leading part of the Gram matrix sends v to zero only if v combines the columns to zero. */
  lemma {:induction false} GramKernel(c: seq<Vector>, m: nat, v: Vector)
    requires Columns(c, m) && |v| <= |c|
    requires forall r | 0 <= r < |v| :: Dot(Gram(c, m)[r][..|v|], v) == 0.0
    ensures IsZero(Combine(c, v, m))
  {
    hide Dot, Combine, Gram;
    var w := Combine(c, v, m);
    forall r | 0 <= r < |v| ensures Projections(c, w)[..|v|][r] == 0.0 {
      GramRow(c, m, r);
      DotCombine(c[r], c, v, m);
    }
    DotCombine(w, c, v, m);
    DotComm(Projections(c, w)[..|v|], v);
    DotZero(v, Projections(c, w)[..|v|]);
    DotSquare(w);
  }

  /** Solving the normal equations makes the residual orthogonal to every column. */
  lemma {:induction false} ResidualOrthogonal(c: seq<Vector>, y: Vector, a: Vector, j: nat)
    requires |c| >= 1 && Columns(c, |y|) && Solves(Gram(c, |y|), a, Projections(c, y)) && j < |c|
    ensures Dot(c[j], Residual(c, y, a)) == 0.0
  {
    hide Dot, Combine, Gram, Plus, Scale;
    var fit := Combine(c, a, |y|);
    GramRow(c, |y|, j);
    DotCombine(c[j], c, a, |y|);
    assert Projections(c, c[j])[..|a|] == Projections(c, c[j]);
    DotPlus(c[j], y, Scale(-1.0, fit));
    DotScale(c[j], -1.0, fit);
  }

  lemma {:induction false} OrthogonalToCombination(w: Vector, c: seq<Vector>, v: Vector)
    requires |v| <= |c| && Columns(c, |w|)
    requires forall j | 0 <= j < |c| :: Dot(c[j], w) == 0.0
    ensures Dot(w, Combine(c, v, |w|)) == 0.0
  {
    hide Dot, Combine;
    DotCombine(w, c, v, |w|);
    DotComm(Projections(c, w)[..|v|], v);
    DotZero(v, Projections(c, w)[..|v|]);
  }

  /** No choice of coefficients leaves a smaller sum of squared residuals. */
  lemma {:induction false} NormalEquationsMinimise(c: seq<Vector>, y: Vector, a: Vector, b: Vector)
    requires |c| >= 1 && Columns(c, |y|) && Solves(Gram(c, |y|), a, Projections(c, y)) && |b| == |c|
    ensures Dot(Residual(c, y, a), Residual(c, y, a)) <= Dot(Residual(c, y, b), Residual(c, y, b))
  {
    hide Dot, Combine, Gram, Projections;
    var m := |y|;
    var ra, rb := Residual(c, y, a), Residual(c, y, b);
    var fa, fb := Combine(c, a, m), Combine(c, b, m);
    var d := Plus(fa, Scale(-1.0, fb));
    assert rb == Plus(ra, d);
    forall j | 0 <= j < |c| ensures Dot(c[j], ra) == 0.0 { ResidualOrthogonal(c, y, a, j); }
    OrthogonalToCombination(ra, c, a);
    OrthogonalToCombination(ra, c, b);
    DotPlus(ra, fa, Scale(-1.0, fb));
    DotScale(ra, -1.0, fb);
    assert Dot(ra, d) == 0.0;
    hide Plus, Scale, Residual;
    SquareOfSum(ra, d);
    DotSquare(d);
  }

  lemma {:induction false} SquareOfSum(u: Vector, v: Vector)
    requires |u| == |v|
    ensures Dot(Plus(u, v), Plus(u, v)) == Dot(u, u) + 2.0 * Dot(u, v) + Dot(v, v)
  {
    hide Dot, Plus;
    var w := Plus(u, v);
    DotPlus(w, u, v);
    DotComm(w, u);
    DotComm(w, v);
    DotPlus(u, u, v);
    DotPlus(v, u, v);
    DotComm(v, u);
  }
}
