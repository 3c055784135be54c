/** The sums and weights of the Gauss-Jackson integrator, and what they give on polynomials. */
module IntegratorSums {
  import opened Vectors
  import opened LeastSquares
  import opened Polynomials
  import opened Derivatives
  import opened Series
  import opened GaussJackson
  import opened Exactness

  // ---------- rows ----------

  lemma {:induction false} PartsStep(rn: real, before: real, dn: real, after: real, en: real)
    requires en == dn - after
    ensures before * dn + (rn - before) * dn == rn * en + rn * after
  {
    assert rn * en == rn * dn - rn * after;
    assert (rn - before) * dn == rn * dn - before * dn;
  }

  lemma {:induction false} RowPrefix(r: Vector, n: nat)
    requires n <= |r|
    ensures RowDifference(r)[..n] == RowDifference(r[..n])
  {
  }

  lemma {:induction false} ByParts(r: Vector, d: Vector, e: Vector)
    requires |r| == |e| == |d| - 1 && r != []
    requires forall i | 0 <= i < |e| :: e[i] == d[i] - d[i + 1]
    ensures Dot(RowDifference(r), d[..|r|]) == Dot(r, e) + r[|r| - 1] * d[|r|]
    decreases |r|
  {
    hide Dot, RowDifference;
    var n := |r| - 1;
    var s := RowDifference(r);
    DotLast(s, d[..n + 1]);
    DotLast(r, e);
    assert d[..n + 1][..n] == d[..n];
    SameProduct(s[n], d[..n + 1][n], s[n], d[n]);
    if n > 0 {
      ByParts(r[..n], d[..n + 1], e[..n]);
      RowPrefix(r, n);
      SameProduct(r[..n][n - 1], d[..n + 1][n], r[n - 1], d[n]);
      SameProduct(s[n], d[n], r[n] - r[n - 1], d[n]);
      PartsStep(r[n], r[n - 1], d[n], d[n + 1], e[n]);
    } else {
      assert r[..0] == [] && e[..0] == [] && s[..0] == [] && d[..0] == [];
      NoDot();
      PartsStep(r[0], 0.0, d[0], d[1], e[0]);
    }
  }

  /** The differences of a row weigh the differences one step earlier. */
  lemma {:induction false} RowShift(r: Vector, f: Vector, x: real)
    requires |f| <= |r|
    ensures Dot(RowDifference(r), Nablas(f, 0, |r|, x)) == Dot(r, Nablas(f, 0, |r|, x - 1.0))
  {
    hide Nabla, Dot, RowDifference;
    var n := |r|;
    if n == 0 {
      assert RowDifference(r) == r && Nablas(f, 0, n, x) == Nablas(f, 0, n, x - 1.0);
    } else {
      var d, e := Nablas(f, 0, n + 1, x), Nablas(f, 0, n, x - 1.0);
      forall i | 0 <= i < n ensures e[i] == d[i] - d[i + 1] {
        NablaNext(f, i, x);
      }
      ByParts(r, d, e);
      assert d[..n] == Nablas(f, 0, n, x);
      NablaVanishes(f, n, x);
    }
  }

  // ---------- the sums of the integrator ----------

  /** The series 1/(k+1) in the differences of p: what summing up a derivative gives. */
  function Once(n: nat, p: Vector, x: real): real
  {
    Dot(Harmonic(n), Nablas(p, 0, n, x))
  }

  /** The same series twice. */
  function OnceMore(n: nat, p: Vector, x: real): real
  {
    Dot(Product(Harmonic(n), Harmonic(n)), Nablas(p, 0, n, x))
  }

  /** Row `order` of beta, in the differences of f at x. */
  function VelocitySum(order: nat, f: Vector, x: real): real
  {
    Dot(CTable(order + 3)[1..order + 2], Nablas(f, 0, order + 1, x))
  }

  /** Row `order` of alpha, in the differences of f at x. */
  function PositionSum(order: nat, f: Vector, x: real): real
  {
    Dot(QTable(order + 3)[2..], Nablas(f, 0, order + 1, x))
  }

  /** Early coefficients of a product need only the early ones of its second factor. */
  lemma {:induction false} ProductPrefix(a: Vector, b: Vector, n: nat, k: nat)
    requires k < n <= |b| && k < |a|
    ensures Product(a, b[..n])[k] == Product(a, b)[k]
  {
    hide Product, Dot;
    ProductAt(a, b[..n], k);
    ProductAt(a, b, k);
    assert Backwards(b[..n], k, k + 1) == Backwards(b, k, k + 1);
  }

  /** c without its first term cancels all but the first term of 1 + x/2 + x^2/3 + ... */
  lemma {:induction false} CTail(n: nat, k: nat)
    requires k < n
    ensures Product(CTable(n + 1)[1..], Harmonic(n))[k] == -Harmonic(n + 1)[k + 1]
  {
    hide Product, CTable;
    var c, h := CTable(n + 1), Harmonic(n + 1);
    CTermAt(n + 1, k + 1);
    FirstTerms(n + 1);
    ProductIndex(c, h, k + 1);
    ProductPrefix(c[1..], h, n, k);
    assert h[..n] == Harmonic(n);
  }

  /** The first two terms of a product. */
  lemma {:induction false} ProductStart(a: Vector, b: Vector)
    requires |a| == |b| >= 1
    ensures Product(a, b)[0] == a[0] * b[0]
    ensures |a| >= 2 ==> Product(a, b)[1] == a[0] * b[1] + a[1] * b[0]
  {
    hide Product;
    ProductIndex(a, b, 0);
    if |a| >= 2 {
      ProductIndex(a, b, 1);
      ProductIndex(a[1..], b, 0);
    }
  }

  lemma {:induction false} FirstTerms(n: nat)
    requires n >= 1
    ensures CTable(n)[0] == 1.0 && QTable(n)[0] == 1.0
    ensures n >= 2 ==> CTable(n)[1] == -0.5 && QTable(n)[1] == -1.0
  {
    hide Product, CTable, QTable, Dot;
    CTermAt(n, 0);
    ProductStart(CTable(n), Harmonic(n));
    ProductStart(CTable(n), CTable(n));
    QTermAt(n, 0);
    if n >= 2 {
      CTermAt(n, 1);
      QTermAt(n, 1);
    }
  }

  /** v less its sum by row `order` of beta is its derivative summed up. */
  lemma {:induction false} VelocityRest(order: nat, v: Vector, x: real)
    requires |v| <= order + 2
    ensures VelocitySum(order, Derivative(v), x) == Eval(v, x) - Once(order + 2, v, x)
  {
    hide Nabla, Dot, Derivative, CTable, Product, Harmonic, Scale;
    var n := order + 1;
    var u, h := CTable(n + 1)[1..], Harmonic(n + 1);
    CPrefix(n + 2, n + 1);
    assert CTable(n + 2)[1..n + 1] == u;
    Compose(u, v, 0, x);
    assert Product(u, Harmonic(n)) == Scale(-1.0, h[1..]) by {
      forall k | 0 <= k < n ensures Product(u, Harmonic(n))[k] == Scale(-1.0, h[1..])[k] {
        CTail(n, k);
      }
    }
    var d := Nablas(v, 0, n + 1, x);
    assert d[1..] == Nablas(v, 1, n, x);
    DotComm(Scale(-1.0, h[1..]), d[1..]);
    DotScale(d[1..], -1.0, h[1..]);
    DotComm(d[1..], h[1..]);
    DotHead(h, d);
    NablaNext(v, 0, x);
    assert h[0] == 1.0;
  }

  /** The square of 1 + x/2 + x^2/3 + ... */
  function Square2(n: nat): (r: Vector)
    ensures |r| == n
  {
    Product(Harmonic(n), Harmonic(n))
  }

  lemma {:induction false} Square2Prefix(n: nat, m: nat)
    requires m <= n
    ensures Square2(n)[..m] == Square2(m)
  {
    hide Product;
    forall k | 0 <= k < m ensures Square2(n)[k] == Square2(m)[k] {
      ProductAt(Harmonic(n), Harmonic(n), k);
      ProductAt(Harmonic(m), Harmonic(m), k);
      assert Harmonic(n)[..k + 1] == Harmonic(m)[..k + 1];
      assert Backwards(Harmonic(n), k, k + 1) == Backwards(Harmonic(m), k, k + 1);
    }
  }

  lemma {:induction false} Square2Start(n: nat)
    requires n >= 2
    ensures Square2(n)[0] == 1.0 && Square2(n)[1] == 1.0
  {
    hide Product;
    ProductStart(Harmonic(n), Harmonic(n));
  }

  /** q without its first two terms, in the same way. */
  lemma {:induction false} QTail(n: nat, k: nat)
    requires k < n
    ensures Product(QTable(n + 2)[2..], Square2(n))[k] == -RowDifference(Square2(n + 2))[k + 2]
  {
    hide Product, QTable, CTable, Square2, Harmonic;
    var q, h := QTable(n + 2), Square2(n + 2);
    QTimesSquare(n + 2);
    FirstTerms(n + 2);
    ProductIndex(q, h, k + 2);
    ProductIndex(q[1..], h, k + 1);
    assert q[1..][1..] == q[2..];
    ProductPrefix(q[2..], h, n, k);
    Square2Prefix(n + 2, n);
  }

  lemma {:induction false} QTimesSquare(n: nat)
    ensures Product(QTable(n), Square2(n)) == Unit(n)
  {
    hide Product, QTable;
    QInvertsHarmonicTwice(n);
    ProductAssociative(QTable(n), Harmonic(n), Harmonic(n));
  }

  lemma {:induction false} PositionSeries(order: nat, p: Vector, x: real)
    requires |p| <= order + 3
    ensures var n := order + 1;
            PositionSum(order, DerivativeN(p, 2), x) ==
            Dot(Product(QTable(n + 2)[2..], Square2(n)), Nablas(p, 2, n, x))
  {
    hide Nabla, Dot, Derivative, QTable, Product, Harmonic;
    var n := order + 1;
    var u := QTable(n + 2)[2..];
    Twice(p);
    Compose(u, Derivative(p), 0, x);
    Compose(Product(u, Harmonic(n)), p, 1, x);
    ProductAssociative(u, Harmonic(n), Harmonic(n));
  }

  /** p less its sum by row `order` of alpha is its second derivative summed up twice, one step earlier. */
  lemma {:induction false} PositionRest(order: nat, p: Vector, x: real)
    requires |p| <= order + 3
    ensures PositionSum(order, DerivativeN(p, 2), x) == Eval(p, x) - OnceMore(order + 3, p, x - 1.0)
  {
    hide Nabla, Dot, QTable, Product, Harmonic, Scale, PositionSum, DerivativeN, Square2;
    var n := order + 1;
    var u, h, d := QTable(n + 2)[2..], RowDifference(Square2(n + 2)), Nablas(p, 0, n + 2, x);
    PositionSeries(order, p, x);
    assert Product(u, Square2(n)) == Scale(-1.0, h[2..]) by {
      forall k | 0 <= k < n ensures Product(u, Square2(n))[k] == Scale(-1.0, h[2..])[k] {
        QTail(n, k);
      }
    }
    assert d[2..] == Nablas(p, 2, n, x);
    DotComm(Scale(-1.0, h[2..]), d[2..]);
    DotScale(d[2..], -1.0, h[2..]);
    DotComm(d[2..], h[2..]);
    DotHead(h, d);
    DotHead(h[1..], d[1..]);
    assert h[1..][1..] == h[2..] && d[1..][1..] == d[2..];
    Square2Start(n + 2);
    NablaNext(p, 0, x);
    RowShift(Square2(n + 2), p, x);
    OnceMoreIs(n + 2, p, x - 1.0);
  }

  lemma {:induction false} OnceMoreIs(n: nat, p: Vector, x: real)
    ensures OnceMore(n, p, x) == Dot(Square2(n), Nablas(p, 0, n, x))
  {
  }

  /** Summing up a derivative: its values are the steps of the sum. */
  lemma {:induction false} OnceSteps(n: nat, v: Vector, x: real)
    requires |v| <= n + 1
    ensures Once(n, v, x) - Once(n, v, x - 1.0) == Eval(Derivative(v), x)
  {
    hide Nabla, Dot, Derivative, Harmonic, SlopeSum;
    NablasNext(Harmonic(n), v, 0, n, x);
    SlopeByDifferences(v, n, x);
    SlopeSumIsDot(v, n, x);
  }

  lemma {:induction false} OnceMoreSteps(order: nat, p: Vector, x: real)
    requires |p| <= order + 3
    ensures OnceMore(order + 3, p, x) - OnceMore(order + 3, p, x - 1.0) == Once(order + 2, Derivative(p), x)
  {
    hide Nabla, Dot, Derivative, Harmonic, Product;
    var n := order + 3;
    NablasNext(Product(Harmonic(n), Harmonic(n)), p, 0, n, x);
    Compose(Harmonic(n), p, 0, x);
    LastVanishes(Harmonic(n), Derivative(p), 0, n - 1, x);
    assert Harmonic(n)[..n - 1] == Harmonic(n - 1);
  }

  // ---------- the rows of the tables ----------

  /** Row j of alpha in a kernel of this order. */
  function AlphaRow(order: nat, j: nat): (r: Vector)
    requires j <= order + 1
    ensures |r| == order + 1
  {
    TableRow(QTable(order + 3)[2..], SumsFrom(QTable(order + 3), 2, order + 1), order, j)
  }

  /** Row j of beta. */
  function BetaRow(order: nat, j: nat): (r: Vector)
    requires j <= order + 1
    ensures |r| == order + 1
  {
    TableRow(CTable(order + 3)[1..order + 2], SumsFrom(CTable(order + 3), 1, order + 1), order, j)
  }

  /** The partial sums of v up to element k, k + 1, ... : n of them. */
  function SumsFrom(v: Vector, k: nat, n: nat): (r: Vector)
    requires k + n <= |v|
    ensures |r| == n && forall i | 0 <= i < n :: r[i] == Sum(v[..k + i + 1])
  {
    seq(n, i requires 0 <= i < n => Sum(v[..k + i + 1]))
  }

  lemma {:induction false} SumNext(v: Vector, k: nat)
    requires k < |v|
    ensures Sum(v[..k + 1]) == Sum(v[..k]) + v[k] && Sum(v[..0]) == 0.0
  {
    assert v[..k + 1][..k] == v[..k];
  }

  /** The row that predicts differs by the sum of the terms left out. */
  lemma {:induction false} SumsDifference(v: Vector, k: nat, n: nat, i: nat)
    requires k + n <= |v| && i < n
    ensures RowDifference(SumsFrom(v, k, n))[i] == v[k + i] + if i == 0 then Sum(v[..k]) else 0.0
  {
    hide Sum;
    SumNext(v, k + i);
  }

  /** A row below `order` is row `order` taken at its own point. */
  lemma {:induction false} RowReaches(last: Vector, next: Vector, order: nat, j: nat, f: Vector, x: real)
    requires |last| == |next| == order + 1 && j <= order && |f| <= order + 1
    ensures Dot(TableRow(last, next, order, j), Nablas(f, 0, order + 1, x)) ==
            Dot(last, Nablas(f, 0, order + 1, x - (order - j) as real))
    decreases order - j
  {
    hide Dot, TableRow, Nabla, RowDifference;
    TopRows(last, next, order);
    if j < order {
      LowerRow(last, next, order, j);
      RowShift(TableRow(last, next, order, j + 1), f, x);
      RowReaches(last, next, order, j + 1, f, x - 1.0);
      assert x - 1.0 - (order - (j + 1)) as real == x - (order - j) as real;
    } else {
      assert x - 0.0 == x;
    }
  }

  lemma {:induction false} NextPosition(order: nat, f: Vector, x: real)
    requires |f| <= order + 1
    ensures Dot(AlphaRow(order, order + 1), Nablas(f, 0, order + 1, x - 1.0)) == PositionSum(order, f, x)
  {
    hide Dot, TableRow, Nabla, RowDifference, QTable, Sum;
    var q := QTable(order + 3);
    var next := SumsFrom(q, 2, order + 1);
    TopRows(q[2..], next, order);
    RowShift(next, f, x);
    assert RowDifference(next) == q[2..] by {
      FirstTerms(order + 3);
      SumNext(q, 0);
      SumNext(q, 1);
      forall i | 0 <= i <= order ensures RowDifference(next)[i] == q[2..][i] {
        SumsDifference(q, 2, order + 1, i);
      }
    }
  }

  lemma {:induction false} NextVelocity(order: nat, f: Vector, x: real)
    requires |f| <= order + 1
    ensures Dot(BetaRow(order, order + 1), Nablas(f, 0, order + 1, x - 1.0)) == VelocitySum(order, f, x) + Eval(f, x)
  {
    hide Dot, TableRow, Nabla, RowDifference, CTable, Sum, Plus;
    var c := CTable(order + 3);
    var last, next, one := c[1..order + 2], SumsFrom(c, 1, order + 1), Unit(order + 1);
    var d := Nablas(f, 0, order + 1, x);
    TopRows(last, next, order);
    RowShift(next, f, x);
    assert RowDifference(next) == Plus(last, one) by {
      FirstTerms(order + 3);
      SumNext(c, 0);
      forall i | 0 <= i <= order ensures RowDifference(next)[i] == Plus(last, one)[i] {
        SumsDifference(c, 1, order + 1, i);
      }
    }
    DotComm(Plus(last, one), d);
    DotPlus(d, last, one);
    DotComm(d, last);
    DotComm(d, one);
    UnitDot(d);
    NablaNext(f, 0, x);
  }

  // ---------- weights on samples ----------

  /** The values of f at base, base + 1, ... : n of them. */
  function Samples(f: Vector, base: real, n: nat): (v: Vector)
    ensures |v| == n && forall i | 0 <= i < n :: v[i] == Eval(f, base + i as real)
  {
    seq(n, i requires 0 <= i < n => Eval(f, base + i as real))
  }

  lemma {:induction false} SampleDifference(f: Vector, base: real, n: nat, k: nat, i: nat)
    requires k <= i < n
    ensures BackDiff(Samples(f, base, n), k, i) == Nabla(f, k, base + i as real)
    decreases k
  {
    hide Nabla, BackDiff, Eval;
    var v := Samples(f, base, n);
    if k == 0 {
      BackDiffStart(v, i);
      NablaNext(f, 0, base + i as real);
    } else {
      BackDiffStep(v, k, i);
      SampleDifference(f, base, n, k - 1, i);
      SampleDifference(f, base, n, k - 1, i - 1);
      NablaNext(f, k - 1, base + i as real);
      assert base + (i - 1) as real == base + i as real - 1.0;
    }
  }

  lemma {:induction false} SampleDifferences(f: Vector, base: real, order: nat)
    ensures Differences(Samples(f, base, order + 1)) == Nablas(f, 0, order + 1, base + order as real)
  {
    hide Nabla, BackDiff, Eval;
    var v := Samples(f, base, order + 1);
    forall i | 0 <= i <= order
      ensures Differences(v)[i] == Nablas(f, 0, order + 1, base + order as real)[i]
    {
      SampleDifference(f, base, order + 1, i, order);
    }
  }

  /** The weights a of row j, first ordinate first. */
  function AWeights(order: nat, j: nat): (w: Vector)
    requires j <= order + 1
    ensures |w| == order + 1
  {
    Backwards(Weights(AlphaRow(order, j)), order, order + 1)
  }

  /** The weights b of row j: half of its own ordinate is added. */
  function BWeights(order: nat, j: nat): (w: Vector)
    requires j <= order + 1
    ensures |w| == order + 1
  {
    var w := Backwards(Weights(BetaRow(order, j)), order, order + 1);
    seq(order + 1, i requires 0 <= i <= order => w[i] + if i == j then 0.5 else 0.0)
  }

  lemma {:induction false} WeighPosition(order: nat, f: Vector, base: real, j: nat)
    requires |f| <= order + 1 && j <= order + 1
    ensures Dot(AWeights(order, j), Samples(f, base, order + 1)) == PositionSum(order, f, base + j as real)
  {
    hide Dot, TableRow, Nabla, RowDifference, QTable, Sum, Eval, BackDiff, Ordinate, PositionSum;
    var v := Samples(f, base, order + 1);
    var x := base + order as real;
    RowAgrees(AlphaRow(order, j), AWeights(order, j), v);
    SampleDifferences(f, base, order);
    if j <= order {
      RowReaches(QTable(order + 3)[2..], SumsFrom(QTable(order + 3), 2, order + 1), order, j, f, x);
      assert x - (order - j) as real == base + j as real;
      PositionSumIs(order, f, base + j as real);
    } else {
      NextPosition(order, f, base + j as real);
      assert base + j as real - 1.0 == x;
    }
  }

  lemma {:induction false} PositionSumIs(order: nat, f: Vector, x: real)
    ensures PositionSum(order, f, x) == Dot(QTable(order + 3)[2..], Nablas(f, 0, order + 1, x))
  {
  }

  lemma {:induction false} VelocitySumIs(order: nat, f: Vector, x: real)
    ensures VelocitySum(order, f, x) == Dot(CTable(order + 3)[1..order + 2], Nablas(f, 0, order + 1, x))
  {
  }

  lemma {:induction false} WeighVelocity(order: nat, f: Vector, base: real, j: nat)
    requires |f| <= order + 1 && j <= order + 1
    ensures Dot(BWeights(order, j), Samples(f, base, order + 1)) ==
            VelocitySum(order, f, base + j as real) + (if j <= order then 0.5 else 1.0) * Eval(f, base + j as real)
  {
    hide Dot, TableRow, Nabla, RowDifference, CTable, Sum, Eval, BackDiff, Ordinate, VelocitySum;
    var v := Samples(f, base, order + 1);
    var x := base + order as real;
    RowAgreesWithHalf(BetaRow(order, j), BWeights(order, j), v, j);
    SampleDifferences(f, base, order);
    if j <= order {
      RowReaches(CTable(order + 3)[1..order + 2], SumsFrom(CTable(order + 3), 1, order + 1), order, j, f, x);
      assert x - (order - j) as real == base + j as real;
      VelocitySumIs(order, f, base + j as real);
    } else {
      NextVelocity(order, f, base + j as real);
      assert base + j as real - 1.0 == x;
    }
  }
}
