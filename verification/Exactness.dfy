/** What the series c and q are for: sums of backward differences that are exact on polynomials. */
module Exactness {
  import opened Vectors
  import opened Polynomials
  import opened Derivatives
  import opened Series
  import opened GaussJackson

  // ---------- backward differences of a polynomial ----------

  /** The k-th backward difference at x, for a step of 1. */
  function Nabla(p: Vector, k: nat, x: real): real
    decreases k
  {
    if k == 0 then Eval(p, x) else Nabla(p, k - 1, x) - Nabla(p, k - 1, x - 1.0)
  }

  /** The differences of order k, k + 1, ... : n of them. */
  function Nablas(p: Vector, k: nat, n: nat, x: real): (d: Vector)
    ensures |d| == n && forall i | 0 <= i < n :: d[i] == Nabla(p, k + i, x)
  {
    seq(n, i requires 0 <= i < n => Nabla(p, k + i, x))
  }

  lemma {:induction false} NablaNext(p: Vector, k: nat, x: real)
    ensures Nabla(p, k + 1, x) == Nabla(p, k, x) - Nabla(p, k, x - 1.0)
    ensures Nabla(p, 0, x) == Eval(p, x)
  {
  }

  lemma {:induction false} LeibnizStep(x: real, k: real, u: real, v: real, w: real)
    ensures x * u + k * v - ((x - 1.0) * (u - w) + k * (v - (u - w))) == x * w + (k + 1.0) * (u - w)
  {
    assert (x - 1.0) * (u - w) == x * u - x * w - (u - w);
    assert k * (v - (u - w)) == k * v - k * (u - w);
  }

  /** The differences of p[0] + t g(t). */
  lemma {:induction false} NablaCons(p: Vector, k: nat, x: real)
    requires p != []
    ensures Nabla(p, k + 1, x) == x * Nabla(p[1..], k + 1, x) + (k + 1) as real * Nabla(p[1..], k, x - 1.0)
    decreases k
  {
    hide Nabla, Eval;
    var g := p[1..];
    NablaNext(p, k, x);
    NablaNext(g, k, x);
    if k == 0 {
      NablaNext(p, 0, x - 1.0);
      NablaNext(g, 0, x - 1.0);
      EvalCons(p, x);
      EvalCons(p, x - 1.0);
      LeibnizStep(x, 0.0, Nabla(g, 0, x), 0.0, Nabla(g, 1, x));
    } else {
      NablaCons(p, k - 1, x);
      NablaCons(p, k - 1, x - 1.0);
      NablaNext(g, k - 1, x - 1.0);
      LeibnizStep(x, k as real, Nabla(g, k, x), Nabla(g, k - 1, x - 1.0), Nabla(g, k + 1, x));
    }
  }

  lemma {:induction false} NablaNil(k: nat, x: real)
    ensures Nabla([], k, x) == 0.0
    decreases k
  {
    if k > 0 {
      NablaNil(k - 1, x);
      NablaNil(k - 1, x - 1.0);
    }
  }

  /** Differences of more than the degree vanish. */
  lemma {:induction false} NablaVanishes(p: Vector, k: nat, x: real)
    requires |p| <= k
    ensures Nabla(p, k, x) == 0.0
    decreases |p|
  {
    hide Nabla;
    if p == [] {
      NablaNil(k, x);
    } else {
      NablaCons(p, k - 1, x);
      NablaVanishes(p[1..], k, x);
      NablaVanishes(p[1..], k - 1, x - 1.0);
    }
  }

  // ---------- the derivative by differences ----------

  /** The first n terms of the derivative: the k-th difference over k, from k = 1 on. */
  function SlopeSum(p: Vector, n: nat, x: real): real
  {
    if n == 0 then 0.0 else SlopeSum(p, n - 1, x) + Nabla(p, n, x) / n as real
  }

  lemma {:induction false} SlopeSumNext(p: Vector, n: nat, x: real)
    ensures SlopeSum(p, 0, x) == 0.0
    ensures SlopeSum(p, n + 1, x) == SlopeSum(p, n, x) + Nabla(p, n + 1, x) / (n + 1) as real
  {
  }

  lemma {:induction false} ShareOf(x: real, k: real, u: real, v: real)
    requires k != 0.0
    ensures (x * u + k * v) / k == x * (u / k) + v
  {
  }

  /** What the rule of differences of p[0] + t g(t) makes of the sum. */
  lemma {:induction false} SlopeSumCons(p: Vector, n: nat, x: real)
    requires p != []
    ensures SlopeSum(p, n, x) == x * SlopeSum(p[1..], n, x) + Eval(p[1..], x) - Nabla(p[1..], n, x)
  {
    hide Nabla, Eval, SlopeSum;
    var g := p[1..];
    SlopeSumNext(p, 0, x);
    SlopeSumNext(g, 0, x);
    NablaNext(g, 0, x);
    if n > 0 {
      SlopeSumCons(p, n - 1, x);
      SlopeSumNext(p, n - 1, x);
      SlopeSumNext(g, n - 1, x);
      NablaCons(p, n - 1, x);
      NablaNext(g, n - 1, x);
      ShareOf(x, n as real, Nabla(g, n, x), Nabla(g, n - 1, x - 1.0));
      Distribute(x, SlopeSum(g, n - 1, x), Nabla(g, n, x) / n as real, SlopeSum(g, n, x));
    }
  }

  /** The derivative is the sum of the k-th differences over k, as many as there are. */
  lemma {:induction false} SlopeByDifferences(p: Vector, n: nat, x: real)
    requires |p| <= n + 1
    ensures Eval(Derivative(p), x) == SlopeSum(p, n, x)
    decreases |p|
  {
    hide Nabla, Eval, SlopeSum, Derivative;
    EvalNil(x);
    if |p| <= 1 {
      assert Derivative(p) == [];
      NoSlope(p, n, x);
    } else {
      ProductRule(p, x);
      SlopeByDifferences(p[1..], n, x);
      SlopeSumCons(p, n, x);
      NablaVanishes(p[1..], n, x);
    }
  }

  lemma {:induction false} NoSlope(p: Vector, n: nat, x: real)
    requires |p| <= 1
    ensures SlopeSum(p, n, x) == 0.0
    decreases n
  {
    if n > 0 {
      hide Nabla;
      NoSlope(p, n - 1, x);
      NablaVanishes(p, n, x);
    }
  }

  lemma {:induction false} OneShare(k: real, v: real)
    requires k != 0.0
    ensures 1.0 / k * v == v / k
  {
  }

  lemma {:induction false} SlopeSumIsDot(p: Vector, n: nat, x: real)
    ensures SlopeSum(p, n, x) == Dot(Harmonic(n), Nablas(p, 1, n, x))
  {
    hide Nabla;
    if n > 0 {
      SlopeSumIsDot(p, n - 1, x);
      assert Harmonic(n)[..n - 1] == Harmonic(n - 1);
      assert Nablas(p, 1, n, x)[..n - 1] == Nablas(p, 1, n - 1, x);
      OneShare(n as real, Nabla(p, n, x));
    }
  }

  lemma {:induction false} DotMinus(u: Vector, v: Vector, w: Vector, d: Vector)
    requires |u| == |v| == |w| == |d| && forall i | 0 <= i < |u| :: d[i] == v[i] - w[i]
    ensures Dot(u, d) == Dot(u, v) - Dot(u, w)
  {
    hide Dot, Plus, Scale;
    assert d == Plus(v, Scale(-1.0, w));
    DotPlus(u, v, Scale(-1.0, w));
    DotScale(u, -1.0, w);
  }

  lemma {:induction false} NablasNext(u: Vector, p: Vector, k: nat, n: nat, x: real)
    requires |u| == n
    ensures Dot(u, Nablas(p, k + 1, n, x)) == Dot(u, Nablas(p, k, n, x)) - Dot(u, Nablas(p, k, n, x - 1.0))
  {
    hide Dot, Nabla;
    forall i | 0 <= i < n
      ensures Nablas(p, k + 1, n, x)[i] == Nablas(p, k, n, x)[i] - Nablas(p, k, n, x - 1.0)[i]
    {
      NablaNext(p, k + i, x);
    }
    DotMinus(u, Nablas(p, k, n, x), Nablas(p, k, n, x - 1.0), Nablas(p, k + 1, n, x));
  }

  /** A last difference beyond the degree adds nothing. */
  lemma {:induction false} LastVanishes(u: Vector, p: Vector, k: nat, n: nat, x: real)
    requires |u| == n + 1 && |p| <= k + n
    ensures Dot(u, Nablas(p, k, n + 1, x)) == Dot(u[..n], Nablas(p, k, n, x))
  {
    hide Nabla;
    NablaVanishes(p, k + n, x);
    assert Nablas(p, k, n + 1, x)[..n] == Nablas(p, k, n, x);
  }

  /** The differences of the derivative by those of the polynomial. */
  lemma {:induction false} NablaOfDerivative(p: Vector, k: nat, n: nat, x: real)
    requires |p| <= k + n + 1
    ensures Nabla(Derivative(p), k, x) == Dot(Harmonic(n), Nablas(p, k + 1, n, x))
    decreases k
  {
    hide Nabla, Derivative, Dot, SlopeSum, Nablas, Harmonic;
    NablaNext(Derivative(p), 0, x);
    if k == 0 {
      SlopeByDifferences(p, n, x);
      SlopeSumIsDot(p, n, x);
    } else {
      NablaNext(Derivative(p), k - 1, x);
      NablaOfDerivative(p, k - 1, n + 1, x);
      NablaOfDerivative(p, k - 1, n + 1, x - 1.0);
      NablasNext(Harmonic(n + 1), p, k, n + 1, x);
      LastVanishes(Harmonic(n + 1), p, k + 1, n, x);
      assert Harmonic(n + 1)[..n] == Harmonic(n);
    }
  }

  // ---------- series of differences ----------

  /** Differences of order top, top - 1, ... : n of them. */
  function Falls(p: Vector, top: nat, n: nat, x: real): (d: Vector)
    requires n <= top + 1
    ensures |d| == n && forall i | 0 <= i < n :: d[i] == Nabla(p, top - i, x)
  {
    seq(n, i requires 0 <= i < n => Nabla(p, top - i, x))
  }

  lemma {:induction false} FallsOfDerivative(p: Vector, top: nat, n: nat, x: real)
    requires 1 <= top && n <= top && |p| <= top + 1
    ensures Falls(Derivative(p), top - 1, n, x) == Product(Harmonic(n), Falls(p, top, n, x))
  {
    hide Nabla, Product, Dot, Harmonic, Derivative;
    var d := Falls(p, top, n, x);
    forall i | 0 <= i < n ensures Falls(Derivative(p), top - 1, n, x)[i] == Product(Harmonic(n), d)[i] {
      ProductAt(Harmonic(n), d, i);
      assert Harmonic(n)[..i + 1] == Harmonic(i + 1);
      assert Backwards(d, i, i + 1) == Nablas(p, top - i, i + 1, x);
      NablaOfDerivative(p, top - 1 - i, i + 1, x);
    }
  }

  /** A series in the differences of the derivative is the product with 1 + x/2 + x^2/3 + ... in those of the
      polynomial. */
  lemma {:induction false} Compose(u: Vector, p: Vector, k: nat, x: real)
    requires |p| <= k + |u| + 1
    ensures Dot(u, Nablas(Derivative(p), k, |u|, x)) == Dot(Product(u, Harmonic(|u|)), Nablas(p, k + 1, |u|, x))
  {
    hide Nabla, Product, Dot, Harmonic, Derivative;
    var n := |u|;
    if n == 0 {
      assert Product(u, Harmonic(0)) == [] == u;
      assert Nablas(Derivative(p), k, 0, x) == Nablas(p, k + 1, 0, x);
    } else {
      var top := k + n;
      var d, e := Falls(p, top, n, x), Falls(Derivative(p), top - 1, n, x);
      FallsOfDerivative(p, top, n, x);
      ProductAssociative(u, Harmonic(n), d);
      ProductAt(u, e, n - 1);
      ProductAt(Product(u, Harmonic(n)), d, n - 1);
      assert u[..n] == u && Product(u, Harmonic(n))[..n] == Product(u, Harmonic(n));
      assert Backwards(e, n - 1, n) == Nablas(Derivative(p), k, n, x);
      assert Backwards(d, n - 1, n) == Nablas(p, k + 1, n, x);
    }
  }

  // ---------- the two series of the kernel ----------

  /** c in the differences of a derivative gives the first difference: the rule of Adams and Moulton. */
  lemma {:induction false} CSumsToDifference(p: Vector, n: nat, x: real)
    requires |p| <= n + 1 && n >= 1
    ensures Dot(CTable(n), Nablas(Derivative(p), 0, n, x)) == Eval(p, x) - Eval(p, x - 1.0)
  {
    hide Nabla, Dot, Derivative, CTable, Product;
    Compose(CTable(n), p, 0, x);
    CInvertsHarmonic(n);
    UnitDot(Nablas(p, 1, n, x));
    NablaNext(p, 0, x);
    NablaNext(p, 0, x - 1.0);
  }

  /** q in the differences of a second derivative gives the second difference: the rule of Cowell. */
  lemma {:induction false} QSumsToDifference(p: Vector, n: nat, x: real)
    requires |p| <= n + 2 && n >= 1
    ensures Dot(QTable(n), Nablas(DerivativeN(p, 2), 0, n, x)) ==
            Eval(p, x) - 2.0 * Eval(p, x - 1.0) + Eval(p, x - 2.0)
  {
    hide Nabla, Dot, Derivative, CTable, QTable, Product;
    Twice(p);
    Compose(QTable(n), Derivative(p), 0, x);
    Compose(Product(QTable(n), Harmonic(n)), p, 1, x);
    QInvertsHarmonicTwice(n);
    UnitDot(Nablas(p, 2, n, x));
    NablaNext(p, 1, x);
    NablaNext(p, 0, x);
    NablaNext(p, 0, x - 1.0);
    NablaNext(p, 0, x - 2.0);
  }

  lemma {:induction false} Twice(p: Vector)
    ensures DerivativeN(p, 2) == Derivative(Derivative(p)) && DerivativeN(p, 1) == Derivative(p)
  {
    assert DerivativeN(p, 0) == p;
  }

  lemma {:induction false} UnitDot(d: Vector)
    requires d != []
    ensures Dot(Unit(|d|), d) == d[0]
  {
    hide Dot;
    DotHead(Unit(|d|), d);
    assert Unit(|d|)[1..] == ZeroVector(|d| - 1);
    DotComm(ZeroVector(|d| - 1), d[1..]);
    DotZero(d[1..], ZeroVector(|d| - 1));
  }
}
