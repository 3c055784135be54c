/** gauss_jackson_kernel and gauss_jackson_step of mathlib.cpp, over exact reals. */
module GaussJackson {
  import opened Vectors
  import opened LeastSquares
  import opened Series

  // ---------- the coefficient tables as functions ----------

  /** 1, 1/2, 1/3, ... */
  function Harmonic(n: nat): (r: Vector)
    ensures |r| == n && forall i | 0 <= i < n :: r[i] == 1.0 / (i + 1) as real
  {
    seq(n, i requires 0 <= i < n => 1.0 / (i + 1) as real)
  }

  /** c as the kernel computes it: each term from all the earlier ones. */
  function CTable(n: nat): (c: Vector)
    ensures |c| == n
  {
    if n == 0 then []
    else if n == 1 then [1.0]
    else
      var before := CTable(n - 1);
      before + [-Dot(before, Backwards(Harmonic(n), n - 1, n - 1))]
  }

  /** q is the square of c. */
  function QTable(n: nat): (q: Vector)
    ensures |q| == n
  {
    seq(n, i requires 0 <= i < n => Dot(CTable(i + 1), Backwards(CTable(i + 1), i, i + 1)))
  }

  function Sum(v: Vector): real
  {
    if v == [] then 0.0 else Sum(v[..|v| - 1]) + v[|v| - 1]
  }

  /** Row j of alpha or beta: the two top rows are given, each row below is the differences of the one above. */
  function TableRow(last: Vector, next: Vector, order: nat, j: nat): (r: Vector)
    requires |last| == |next| && j <= order + 1
    ensures |r| == |last|
    decreases order + 1 - j
  {
    if j == order + 1 then next
    else if j == order then last
    else RowDifference(TableRow(last, next, order, j + 1))
  }

  function RowDifference(above: Vector): (r: Vector)
    ensures |r| == |above|
    ensures forall i | 0 <= i < |r| :: r[i] == if i == 0 then above[0] else above[i] - above[i - 1]
  {
    seq(|above|, i requires 0 <= i < |above| => if i == 0 then above[0] else above[i] - above[i - 1])
  }

  // ---------- c and q as power series ----------

  lemma {:induction false} CTermAt(n: nat, k: nat)
    requires k < n
    ensures Product(CTable(n), Harmonic(n))[k] == if k == 0 then 1.0 else 0.0
  {
    hide Product, Dot, CTable, Harmonic;
    ProductAt(CTable(n), Harmonic(n), k);
    CPrefix(n, k + 1);
    CCancels(k + 1, n);
  }

  /** The series c is the inverse of 1 + x/2 + x^2/3 + ... */
  lemma {:induction false} CInvertsHarmonic(n: nat)
    ensures Product(CTable(n), Harmonic(n)) == Unit(n)
  {
    hide Product, CTable, Harmonic;
    forall k | 0 <= k < n ensures Product(CTable(n), Harmonic(n))[k] == Unit(n)[k] {
      CTermAt(n, k);
    }
  }

  lemma {:induction false} CPrefix(n: nat, k: nat)
    requires k <= n
    ensures CTable(n)[..k] == CTable(k)
    decreases n - k
  {
    if k < n {
      CPrefix(n, k + 1);
      assert CTable(k + 1)[..k] == CTable(k);
    }
  }

  lemma {:induction false} CCancels(k: nat, n: nat)
    requires 1 <= k <= n
    ensures Dot(CTable(k), Backwards(Harmonic(n), k - 1, k)) == if k == 1 then 1.0 else 0.0
  {
    var w := Backwards(Harmonic(n), k - 1, k);
    assert w[k - 1] == 1.0;
    if k > 1 {
      assert CTable(k)[..k - 1] == CTable(k - 1);
      assert w[..k - 1] == Backwards(Harmonic(k), k - 1, k - 1);
    } else {
      assert CTable(1)[..0] == [] && w[..0] == [];
    }
  }

  lemma {:induction false} QTermAt(n: nat, k: nat)
    requires k < n
    ensures QTable(n)[k] == Product(CTable(n), CTable(n))[k]
  {
    hide Product, Dot, CTable, Backwards;
    ProductAt(CTable(n), CTable(n), k);
    CPrefix(n, k + 1);
    BackwardsPrefix(CTable(n), k, k + 1);
  }

  lemma {:induction false} QIsSquare(n: nat)
    ensures QTable(n) == Product(CTable(n), CTable(n))
  {
    hide Product, CTable, QTable;
    forall k | 0 <= k < n ensures QTable(n)[k] == Product(CTable(n), CTable(n))[k] {
      QTermAt(n, k);
    }
  }

  /** The series q is the inverse of the square of 1 + x/2 + x^2/3 + ... */
  lemma {:induction false} QInvertsHarmonicTwice(n: nat)
    ensures Product(QTable(n), Harmonic(n)) == CTable(n)
    ensures Product(Product(QTable(n), Harmonic(n)), Harmonic(n)) == Unit(n)
  {
    hide Product, CTable, QTable;
    QIsSquare(n);
    ProductAssociative(CTable(n), CTable(n), Harmonic(n));
    CInvertsHarmonic(n);
    UnitProduct(CTable(n));
  }

  // ---------- the rows as differences ----------

  /** k rows below `order` the table holds the k-th backward differences of that row, preceded by zeros. */
  lemma {:induction false} RowsAreDifferences(last: Vector, next: Vector, order: nat, k: nat, zeros: nat, i: nat)
    requires |last| == |next| && k <= order && k <= zeros && i < |last|
    ensures TableRow(last, next, order, order - k)[i] == BackDiff(ZeroVector(zeros) + last, k, zeros + i)
    decreases k
  {
    hide BackDiff, TableRow;
    if k == 0 {
      TopRows(last, next, order);
      BackDiffStart(ZeroVector(zeros) + last, zeros + i);
    } else {
      LowerRow(last, next, order, order - k);
      BackDiffStep(ZeroVector(zeros) + last, k, zeros + i);
      RowsAreDifferences(last, next, order, k - 1, zeros, i);
      if i > 0 {
        RowsAreDifferences(last, next, order, k - 1, zeros, i - 1);
      } else {
        ZeroDifference(ZeroVector(zeros) + last, zeros, k - 1, zeros - 1);
      }
    }
  }

  lemma {:induction false} BackDiffStart(f: Vector, n: nat)
    requires n < |f|
    ensures BackDiff(f, 0, n) == f[n]
  {
  }

  lemma {:induction false} BackDiffStep(f: Vector, i: nat, n: nat)
    requires 1 <= i <= n < |f|
    ensures BackDiff(f, i, n) == BackDiff(f, i - 1, n) - BackDiff(f, i - 1, n - 1)
  {
  }

  lemma {:induction false} ZeroDifference(f: Vector, zeros: nat, k: nat, n: nat)
    requires zeros <= |f| && k <= n < zeros && forall i | 0 <= i < zeros :: f[i] == 0.0
    ensures BackDiff(f, k, n) == 0.0
    decreases k
  {
    if k > 0 {
      ZeroDifference(f, zeros, k - 1, n);
      ZeroDifference(f, zeros, k - 1, n - 1);
    }
  }

  /** Row order - k of a table in closed form: alternating binomial sums of the row it starts from. */
  lemma {:induction false} RowsInClosedForm(last: Vector, next: Vector, order: nat, k: nat, i: nat)
    requires |last| == |next| && k <= order && i < |last|
    ensures var f := ZeroVector(k) + last;
            TableRow(last, next, order, order - k)[i] == Dot(SignedRow(k, k + 1), Backwards(f, k + i, k + 1))
  {
    hide Dot, TableRow, BackDiff;
    RowsAreDifferences(last, next, order, k, k, i);
    BackDiffIsSum(ZeroVector(k) + last, k, k + i, k + 1);
  }

  // ---------- ordinate form ----------

  /** (-1)^m times the sum of alpha[i] * C(i, m). */
  function Ordinate(alpha: Vector, m: nat): real
  {
    Sign(m) * Dot(alpha, BinomColumn(m, |alpha|))
  }

  function BinomColumn(m: nat, n: nat): (r: Vector)
    ensures |r| == n && forall i | 0 <= i < n :: r[i] == Binom(m, i) as real
  {
    seq(n, i requires 0 <= i < n => Binom(m, i) as real)
  }

  function SignedColumns(n: nat): (c: seq<Vector>)
    ensures |c| == n && Columns(c, n) && forall m | 0 <= m < n :: c[m] == Scale(Sign(m), BinomColumn(m, n))
  {
    seq(n, m requires 0 <= m < n => Scale(Sign(m), BinomColumn(m, n)))
  }

  /** The backward differences of f at its last element, of order 0, 1, ... */
  function Differences(f: Vector): (d: Vector)
    ensures |d| == |f| && forall i | 0 <= i < |f| :: d[i] == BackDiff(f, i, |f| - 1)
  {
    seq(|f|, i requires 0 <= i < |f| => BackDiff(f, i, |f| - 1))
  }

  lemma {:induction false} CombineEntry(n: nat, v: Vector, i: nat)
    requires |v| <= n && i < n
    ensures Combine(SignedColumns(n), v, n)[i] == Dot(SignedRow(i, |v|), v)
    decreases |v|
  {
    hide Binom, Sign;
    if v != [] {
      var k := |v| - 1;
      CombineEntry(n, v[..k], i);
      assert SignedRow(i, |v|)[..k] == SignedRow(i, k);
      assert SignedColumns(n)[k][i] == SignedTerm(k, i);
    }
  }

  /** Combining the signed columns with the values of f backwards gives the differences of f. */
  lemma {:induction false} CombineIsDifferences(f: Vector)
    requires f != []
    ensures Combine(SignedColumns(|f|), Backwards(f, |f| - 1, |f|), |f|) == Differences(f)
  {
    hide Combine, Dot, BackDiff;
    var n := |f|;
    var v := Backwards(f, n - 1, n);
    forall i | 0 <= i < n ensures Combine(SignedColumns(n), v, n)[i] == Differences(f)[i] {
      CombineEntry(n, v, i);
      BackDiffIsSum(f, i, n - 1, n);
    }
  }

  /** The weights that gauss_jackson_step gives the ordinates, last ordinate first. */
  function Weights(alpha: Vector): (w: Vector)
    ensures |w| == |alpha| && forall m | 0 <= m < |w| :: w[m] == Ordinate(alpha, m)
  {
    seq(|alpha|, m requires 0 <= m < |alpha| => Ordinate(alpha, m))
  }

  /** Ordinate form and difference form of the integrator agree, for every row of coefficients and every f. */
  lemma {:induction false} OrdinateForm(alpha: Vector, f: Vector)
    requires |alpha| == |f| >= 1
    ensures Dot(Weights(alpha), Backwards(f, |f| - 1, |f|)) == Dot(alpha, Differences(f))
  {
    hide Combine, Dot, Sign, BinomColumn, Scale;
    var n := |f|;
    var c, v := SignedColumns(n), Backwards(f, n - 1, n);
    CombineIsDifferences(f);
    DotCombine(alpha, c, v, n);
    forall m | 0 <= m < n ensures Projections(c, alpha)[m] == Weights(alpha)[m] {
      DotComm(c[m], alpha);
      DotScale(alpha, Sign(m), BinomColumn(m, n));
    }
    assert Projections(c, alpha)[..n] == Weights(alpha);
  }

  /** First and last products are the same, and so are the others in all. */
  lemma {:induction false} EndsSwapped(a: Vector, b: Vector, c: Vector, d: Vector)
    requires |a| == |b| >= 1 && |c| == |d| >= 1
    requires a[0] == c[|c| - 1] && b[0] == d[|d| - 1]
    requires Dot(a[1..], b[1..]) == Dot(c[..|c| - 1], d[..|d| - 1])
    ensures Dot(a, b) == Dot(c, d)
  {
    hide Dot;
    DotHead(a, b);
    DotLast(c, d);
    SameProduct(a[0], b[0], c[|c| - 1], d[|d| - 1]);
  }

  lemma {:induction false} DotReverse(u: Vector, f: Vector)
    requires |u| == |f| >= 1
    ensures Dot(Backwards(u, |u| - 1, |u|), f) == Dot(u, Backwards(f, |f| - 1, |f|))
  {
    hide Dot;
    var n := |u|;
    var ru, rf := Backwards(u, n - 1, n), Backwards(f, n - 1, n);
    if n > 1 {
      var v, g := u[..n - 1], f[1..];
      DotReverse(v, g);
      assert ru[1..] == Backwards(v, |v| - 1, |v|);
      assert rf[..n - 1] == Backwards(g, |g| - 1, |g|);
    } else {
      assert ru[1..] == [] && f[1..] == [] && u[..0] == [] && rf[..0] == [];
      NoDot();
    }
    EndsSwapped(ru, f, u, rf);
  }

  /** One row of step weights against any values: the weighted sum of their backward differences. */
  lemma {:induction false} RowAgrees(alpha: Vector, a: Vector, f: Vector)
    requires |alpha| == |a| == |f| >= 1
    requires forall m | 0 <= m < |a| :: a[|a| - 1 - m] == Ordinate(alpha, m)
    ensures Dot(a, f) == Dot(alpha, Differences(f))
  {
    hide Dot, Ordinate, BackDiff;
    var n := |a|;
    var w := Weights(alpha);
    assert a == Backwards(w, n - 1, n) by {
      forall k | 0 <= k < n ensures a[k] == w[n - 1 - k] {
        assert a[n - 1 - (n - 1 - k)] == Ordinate(alpha, n - 1 - k);
      }
    }
    DotReverse(w, f);
    OrdinateForm(alpha, f);
  }

  /** The same with half of one ordinate added, as the weights b have it. */
  lemma {:induction false} RowAgreesWithHalf(beta: Vector, b: Vector, f: Vector, j: nat)
    requires |beta| == |b| == |f| >= 1
    requires forall m | 0 <= m < |b| ::
               b[|b| - 1 - m] == Ordinate(beta, m) + if |b| - 1 - m == j then 0.5 else 0.0
    ensures Dot(b, f) == Dot(beta, Differences(f)) + if j < |f| then 0.5 * f[j] else 0.0
  {
    hide Dot, Ordinate, BackDiff;
    var n := |b|;
    if j >= n {
      RowAgrees(beta, b, f);
    } else {
      var half := seq(n, k => if k == j then 0.5 else 0.0);
      var a := Plus(b, Scale(-1.0, half));
      RowAgrees(beta, a, f);
      DotComm(a, f);
      DotPlus(f, b, Scale(-1.0, half));
      DotScale(f, -1.0, half);
      DotComm(f, b);
      DotComm(f, half);
      DotOne(half, f, j, 0.5);
    }
  }

  lemma {:induction false} DotOne(one: Vector, f: Vector, j: nat, v: real)
    requires |one| == |f| && j < |f| && one[j] == v
    requires forall k | 0 <= k < |f| && k != j :: one[k] == 0.0
    ensures Dot(one, f) == v * f[j]
  {
    var n := |f| - 1;
    if j < n {
      DotOne(one[..n], f[..n], j, v);
      assert one[n] * f[n] == 0.0;
    } else {
      DotComm(one[..n], f[..n]);
      DotZero(f[..n], one[..n]);
    }
  }

  // ---------- the kernel ----------

  /** Row j of a table. */
  function RowOf(table: array2<real>, j: nat): (r: Vector)
    requires j < table.Length0
    reads table
    ensures |r| == table.Length1 && forall i | 0 <= i < |r| :: r[i] == table[j, i]
  {
    seq(table.Length1, i requires 0 <= i < table.Length1 reads table => table[j, i])
  }

  class Kernel {
    const order: nat
    const dvi: real
    const binom: array2<nat>
    const alpha: array2<real>
    const beta: array2<real>
    /** No addition of the int32 table overflowed. */
    var exact: bool
    var c: Vector
    var gam: Vector
    var q: Vector
    var lam: Vector

    ghost predicate Shaped()
    {
      && binom.Length0 == binom.Length1 == order + 2
      && alpha.Length0 == beta.Length0 == order + 2 && alpha.Length1 == beta.Length1 == order + 1
      && alpha != beta
    }

    ghost predicate SeriesFilled()
      reads this
    {
      && c == CTable(order + 3) && q == QTable(order + 3)
      && |gam| == order + 2 && (forall i | 0 <= i < |gam| :: gam[i] == Sum(c[..i + 1]))
      && |lam| == order + 3 && (forall i | 0 <= i < |lam| :: lam[i] == Sum(q[..i + 1]))
    }

    ghost predicate BinomFilled()
      requires Shaped()
      reads binom
    {
      forall m, i | 0 <= m < order + 2 && 0 <= i < order + 2 :: binom[m, i] == Binom(m, i)
    }

    ghost predicate RowsFilled()
      requires Shaped() && SeriesFilled()
      reads this, alpha, beta
    {
      forall j | 0 <= j < order + 2 ::
        && RowOf(beta, j) == TableRow(c[1..order + 2], gam[1..], order, j)
        && RowOf(alpha, j) == TableRow(q[2..], lam[2..], order, j)
    }

    /** gauss_jackson_kernel: the tables of an integrator of the given order. The binomial coefficients are
        int32; from order 33 on an addition overflows and leaves that table undefined. */
    constructor (order: nat, dvi: real)
      ensures this.order == order && this.dvi == dvi && Shaped() && SeriesFilled() && RowsFilled()
      ensures exact <==> order <= 32
      ensures exact ==> BinomFilled()
    {
      hide CTable, QTable, Sum, Binom, TableRow;
      this.order, this.dvi := order, dvi;
      binom := new nat[order + 2, order + 2];
      alpha := new real[order + 2, order + 1];
      beta := new real[order + 2, order + 1];
      exact := true;
      c, gam, q, lam := [], [], [], [];
      new;
      FillBinom();
      FillSeries();
      FillTable(beta, c[1..order + 2], gam[1..], order);
      FillTable(alpha, q[2..], lam[2..], order);
    }

    method FillBinom()
      requires Shaped() && exact
      modifies this`exact, binom
      ensures exact <==> order <= 32
      ensures exact ==> BinomFilled()
    {
      hide Binom;
      BinomFitsInt32(order + 1);
      for m := 0 to order + 2
        invariant exact && forall k, i | 0 <= k < m && 0 <= i < order + 2 :: binom[k, i] == Binom(k, i) < INT32_RANGE
      {
        for i := 0 to order + 2
          invariant exact
          invariant forall k, l | 0 <= k < m && 0 <= l < order + 2 :: binom[k, l] == Binom(k, l) < INT32_RANGE
          invariant forall l | 0 <= l < i :: binom[m, l] == Binom(m, l) < INT32_RANGE
        {
          BinomRule(m, i);
          if m > i {
            binom[m, i] := 0;
          } else {
            if m == i {
              binom[m, i] := 1;
            } else {
              if m == 0 {
                binom[m, i] := 1;
              } else {
                var sum := binom[m - 1, i - 1] + binom[m, i - 1];
                if sum >= INT32_RANGE {
                  exact := false;
                  return;
                }
                binom[m, i] := sum;
              }
            }
          }
        }
      }
    }

    method FillSeries()
      modifies `c, `gam, `q, `lam
      ensures SeriesFilled()
    {
      hide CTable, QTable, Sum;
      c := CSeries(order + 3);
      gam := RunningSums(c, order + 2);
      q := QSeries(c, order + 3);
      lam := RunningSums(q, order + 3);
    }
  }

  method CSeries(count: nat) returns (c: Vector)
    requires count >= 1
    ensures c == CTable(count)
  {
    hide Dot;
    c := [1.0];
    for n := 1 to count
      invariant c == CTable(n)
    {
      var term := 0.0;
      NoTerm(c, n);
      for i := 0 to n
        invariant term == -Dot(c[..i], Backwards(Harmonic(n + 1), n, n)[..i])
      {
        HarmonicStep(c, n, i);
        term := term - c[i] / (n + 1 - i) as real;
      }
      assert c[..n] == c && Backwards(Harmonic(n + 1), n, n)[..n] == Backwards(Harmonic(n + 1), n, n);
      c := c + [term];
    }
  }

  method QSeries(c: Vector, count: nat) returns (q: Vector)
    requires count >= 1 && c == CTable(count)
    ensures q == QTable(count)
  {
    hide CTable, Dot;
    FirstProduct();
    q := [1.0];
    for i := 1 to count
      invariant q == QTable(count)[..i]
    {
      CPrefix(count, i + 1);
      ghost var p := CTable(i + 1);
      ghost var w := Backwards(p, i, i + 1);
      NoDots(p, w);
      var term := 0.0;
      for k := 0 to i + 1
        invariant term == Dot(p[..k], w[..k])
      {
        DotExtend(p, w, k);
        assert c[k] == c[..i + 1][k] == p[k] && c[i - k] == c[..i + 1][i - k] == w[k];
        term := term + c[k] * c[i - k];
      }
      assert p[..i + 1] == p && w[..i + 1] == w;
      q := q + [term];
    }
  }

  method RunningSums(v: Vector, count: nat) returns (s: Vector)
    requires 1 <= count <= |v|
    ensures |s| == count && forall i | 0 <= i < count :: s[i] == Sum(v[..i + 1])
  {
    s := [v[0]];
    assert v[..1][..0] == [];
    for i := 1 to count
      invariant |s| == i && forall k | 0 <= k < i :: s[k] == Sum(v[..k + 1])
    {
      assert v[..i + 1][..i] == v[..i];
      s := s + [s[i - 1] + v[i]];
    }
  }

  lemma {:induction false} FirstProduct()
    ensures CTable(1) == [1.0] && Dot(CTable(1), Backwards(CTable(1), 0, 1)) == 1.0
  {
    DotHead(CTable(1), Backwards(CTable(1), 0, 1));
  }

  lemma {:induction false} NoDots(p: Vector, w: Vector)
    ensures Dot(p[..0], w[..0]) == 0.0
  {
  }

  lemma {:induction false} DotExtend(p: Vector, w: Vector, k: nat)
    requires |p| == |w| && k < |p|
    ensures Dot(p[..k + 1], w[..k + 1]) == Dot(p[..k], w[..k]) + p[k] * w[k]
  {
    assert p[..k + 1][..k] == p[..k] && w[..k + 1][..k] == w[..k];
  }

  lemma {:induction false} BinomRule(m: nat, i: nat)
    ensures Binom(m, i) == if m > i then 0 else if m == i || m == 0 then 1 else Binom(m - 1, i - 1) + Binom(m, i - 1)
  {
  }

  lemma {:induction false} NoTerm(c: Vector, n: nat)
    ensures Dot(c[..0], Backwards(Harmonic(n + 1), n, n)[..0]) == 0.0
  {
  }

  lemma {:induction false} ShareAs(c: real, w: real, k: real)
    requires k != 0.0 && w == 1.0 / k
    ensures c * w == c / k
  {
  }

  lemma {:induction false} HarmonicStep(c: Vector, n: nat, i: nat)
    requires i < n == |c|
    ensures Dot(c[..i + 1], Backwards(Harmonic(n + 1), n, n)[..i + 1]) ==
            Dot(c[..i], Backwards(Harmonic(n + 1), n, n)[..i]) + c[i] / (n + 1 - i) as real
  {
    hide Dot;
    var w := Backwards(Harmonic(n + 1), n, n);
    DotExtend(c, w, i);
    ShareAs(c[i], w[i], (n + 1 - i) as real);
  }

  /** Two given rows and the differences below them, one column after the other. */
  method FillTable(table: array2<real>, last: Vector, next: Vector, order: nat)
    requires table.Length0 == order + 2 && table.Length1 == order + 1 && |last| == |next| == order + 1
    modifies table
    ensures forall j | 0 <= j < order + 2 :: RowOf(table, j) == TableRow(last, next, order, j)
  {
    hide TableRow;
    for i := 0 to order + 1
      invariant forall j, k | 0 <= j < order + 2 && 0 <= k < i :: table[j, k] == TableRow(last, next, order, j)[k]
    {
      TopRows(last, next, order);
      table[order + 1, i] := next[i];
      table[order, i] := last[i];
      var j := order - 1;
      while j >= 0
        invariant -1 <= j <= order - 1
        invariant forall l, k | 0 <= l < order + 2 && 0 <= k < i :: table[l, k] == TableRow(last, next, order, l)[k]
        invariant forall l | j < l < order + 2 :: table[l, i] == TableRow(last, next, order, l)[i]
      {
        LowerRow(last, next, order, j);
        if i == 0 {
          table[j, i] := table[j + 1, i];
        } else {
          table[j, i] := table[j + 1, i] - table[j + 1, i - 1];
        }
        j := j - 1;
      }
    }
  }

  lemma {:induction false} TopRows(last: Vector, next: Vector, order: nat)
    requires |last| == |next|
    ensures TableRow(last, next, order, order + 1) == next && TableRow(last, next, order, order) == last
  {
  }

  lemma {:induction false} LowerRow(last: Vector, next: Vector, order: nat, j: nat)
    requires |last| == |next| && j < order
    ensures TableRow(last, next, order, j) == RowDifference(TableRow(last, next, order, j + 1))
  {
  }

  // ---------- the step ----------

  lemma {:induction false} OrdinateFrom(alpha: Vector, m: nat)
    requires m <= |alpha|
    ensures Dot(alpha[..m], BinomColumn(m, |alpha|)[..m]) == 0.0
  {
    hide Binom;
    forall i | 0 <= i < m ensures BinomColumn(m, |alpha|)[..m][i] == 0.0 {
      BinomNext(m, i);
    }
    DotZero(alpha[..m], BinomColumn(m, |alpha|)[..m]);
  }

  /** The weight of one ordinate: the sum of alpha[i] * C(i, m) with its sign. */
  method Weight(kern: Kernel, table: array2<real>, j: nat, m: nat) returns (w: real)
    requires kern.Shaped() && kern.BinomFilled() && (table == kern.alpha || table == kern.beta)
    requires j < kern.order + 2 && m <= kern.order
    ensures w == Ordinate(RowOf(table, j), m)
  {
    hide Binom, Dot, BinomColumn;
    ghost var row := RowOf(table, j);
    ghost var column := BinomColumn(m, |row|);
    w := 0.0;
    OrdinateFrom(row, m);
    for i := m to kern.order + 1
      invariant w == Dot(row[..i], column[..i])
    {
      DotExtend(row, column, i);
      w := w + table[j, i] * kern.binom[m, i] as real;
    }
    assert row[..kern.order + 1] == row && column[..kern.order + 1] == column;
    w := w * Sign(m);
  }

  /** The loop over the ordinates of row j. */
  method StepRow(kern: Kernel, j: nat, a: array2<real>, b: array2<real>)
    requires kern.Shaped() && kern.BinomFilled() && j < kern.order + 2
    requires a != b && a != kern.alpha && a != kern.beta && b != kern.alpha && b != kern.beta
    requires a.Length0 == b.Length0 == kern.order + 2 && a.Length1 == b.Length1 == kern.order + 1
    modifies a, b
    ensures forall m | 0 <= m <= kern.order ::
      && a[j, kern.order - m] == Ordinate(RowOf(kern.alpha, j), m)
      && b[j, kern.order - m] == Ordinate(RowOf(kern.beta, j), m) + if kern.order - m == j then 0.5 else 0.0
    ensures forall k, m | 0 <= k < kern.order + 2 && k != j && 0 <= m <= kern.order ::
      a[k, m] == old(a[k, m]) && b[k, m] == old(b[k, m])
  {
    hide Ordinate;
    var n := kern.order;
    for m := 0 to n + 1
      invariant forall l | 0 <= l < m ::
        && a[j, n - l] == Ordinate(RowOf(kern.alpha, j), l)
        && b[j, n - l] == Ordinate(RowOf(kern.beta, j), l) + if n - l == j then 0.5 else 0.0
      invariant forall k, l | 0 <= k < n + 2 && k != j && 0 <= l <= n ::
        a[k, l] == old(a[k, l]) && b[k, l] == old(b[k, l])
    {
      var u := Weight(kern, kern.alpha, j, m);
      var v := Weight(kern, kern.beta, j, m);
      a[j, n - m], b[j, n - m] := u, v;
      if n - m == j {
        b[j, n - m] := b[j, n - m] + 0.5;
      }
    }
  }

  /** gauss_jackson_step: the weights of every ordinate in every row, last ordinate first. */
  method Step(kern: Kernel) returns (a: array2<real>, b: array2<real>)
    requires kern.Shaped() && kern.BinomFilled()
    ensures fresh(a) && fresh(b)
    ensures a.Length0 == b.Length0 == kern.order + 2 && a.Length1 == b.Length1 == kern.order + 1
    ensures forall j, m | 0 <= j < kern.order + 2 && 0 <= m <= kern.order ::
      && a[j, kern.order - m] == Ordinate(RowOf(kern.alpha, j), m)
      && b[j, kern.order - m] == Ordinate(RowOf(kern.beta, j), m) + if kern.order - m == j then 0.5 else 0.0
  {
    hide Ordinate;
    var n := kern.order;
    a := new real[n + 2, n + 1];
    b := new real[n + 2, n + 1];
    for j := 0 to n + 2
      invariant forall k, m | 0 <= k < j && 0 <= m <= n ::
        && a[k, n - m] == Ordinate(RowOf(kern.alpha, k), m)
        && b[k, n - m] == Ordinate(RowOf(kern.beta, k), m) + if n - m == k then 0.5 else 0.0
    {
      StepRow(kern, j, a, b);
    }
  }

  /** The weights of a step, row by row: against any values they are the coefficients of the kernel against the
      backward differences of those values. */
  lemma {:induction false} StepAgrees(kern: Kernel, a: array2<real>, b: array2<real>, f: Vector, j: nat)
    requires kern.Shaped() && j < kern.order + 2 && |f| == kern.order + 1
    requires a.Length0 == b.Length0 == kern.order + 2 && a.Length1 == b.Length1 == kern.order + 1
    requires forall k, m | 0 <= k < kern.order + 2 && 0 <= m <= kern.order ::
      && a[k, kern.order - m] == Ordinate(RowOf(kern.alpha, k), m)
      && b[k, kern.order - m] == Ordinate(RowOf(kern.beta, k), m) + if kern.order - m == k then 0.5 else 0.0
    ensures Dot(RowOf(a, j), f) == Dot(RowOf(kern.alpha, j), Differences(f))
    ensures Dot(RowOf(b, j), f) ==
            Dot(RowOf(kern.beta, j), Differences(f)) + if j < |f| then 0.5 * f[j] else 0.0
  {
    hide Dot, Ordinate, BackDiff;
    RowAgrees(RowOf(kern.alpha, j), RowOf(a, j), f);
    RowAgreesWithHalf(RowOf(kern.beta, j), RowOf(b, j), f, j);
  }
}
