/** Backward differences, binomial coefficients and products of power series. */
module Series {
  import opened Vectors

  /** C(i, m), by the rule the kernel fills its table with. */
  function Binom(m: nat, i: nat): nat
    decreases i
  {
    if m > i then 0
    else if m == i then 1
    else if m == 0 then 1
    else Binom(m - 1, i - 1) + Binom(m, i - 1)
  }

  /** (-1)^m. */
  function Sign(m: nat): real
  {
    if m % 2 == 0 then 1.0 else -1.0
  }

  /** The i-th backward difference of f at its element n. */
  function BackDiff(f: Vector, i: nat, n: nat): real
    requires i <= n < |f|
    decreases i
  {
    if i == 0 then f[n] else BackDiff(f, i - 1, n) - BackDiff(f, i - 1, n - 1)
  }

  /** (-1)^m C(i, m). */
  function SignedTerm(m: nat, i: nat): real
  {
    Sign(m) * Binom(m, i) as real
  }

  /** The terms (-1)^m C(i, m) for m from 0 to n - 1. */
  function SignedRow(i: nat, n: nat): (r: Vector)
    ensures |r| == n && forall m | 0 <= m < n :: r[m] == SignedTerm(m, i)
  {
    seq(n, m requires 0 <= m < n => SignedTerm(m, i))
  }

  /** f[n], f[n - 1], ... : count of them. */
  function Backwards(f: Vector, n: nat, count: nat): (r: Vector)
    requires count <= n + 1 <= |f|
    ensures |r| == count && forall m | 0 <= m < count :: r[m] == f[n - m]
  {
    seq(count, m requires 0 <= m < count => f[n - m])
  }

  lemma {:induction false} BackwardsPrefix(f: Vector, n: nat, count: nat)
    requires count <= n + 1 <= |f|
    ensures Backwards(f, n, count) == Backwards(f[..n + 1], n, count)
  {
  }

  lemma {:induction false} SignNext(m: nat)
    ensures Sign(m + 1) == -Sign(m)
  {
  }

  lemma {:induction false} BinomNext(m: nat, i: nat)
    ensures Binom(m, i + 1) == Binom(m, i) + if m == 0 then 0 else Binom(m - 1, i)
    ensures m > i ==> Binom(m, i) == 0
    decreases i
  {
    if m > 0 && m == i + 1 {
      BinomDiagonal(i);
    }
  }

  lemma {:induction false} BinomDiagonal(i: nat)
    ensures Binom(i, i) == 1 && Binom(i + 1, i) == 0
  {
  }

  lemma {:induction false} SignedTermNext(m: nat, i: nat)
    ensures SignedTerm(m, i + 1) == SignedTerm(m, i) - if m == 0 then 0.0 else SignedTerm(m - 1, i)
  {
    hide Binom, Sign;
    BinomNext(m, i);
    if m > 0 {
      SignNext(m - 1);
      SignedStep(Sign(m - 1), Binom(m, i) as real, Binom(m - 1, i) as real);
    }
  }

  lemma {:induction false} SignedRowNext(i: nat, n: nat)
    requires n >= 1
    ensures SignedRow(i + 1, n) == Plus(SignedRow(i, n), Scale(-1.0, [0.0] + SignedRow(i, n - 1)))
  {
    hide SignedTerm, SignedRow;
    var shifted: Vector := [0.0] + SignedRow(i, n - 1);
    forall m | 0 <= m < n
      ensures SignedRow(i + 1, n)[m] == Plus(SignedRow(i, n), Scale(-1.0, shifted))[m]
    {
      SignedTermNext(m, i);
      assert shifted[m] == if m == 0 then 0.0 else SignedTerm(m - 1, i);
      assert Scale(-1.0, shifted)[m] == -shifted[m];
    }
  }

  lemma {:induction false} SignedStep(s: real, u: real, v: real)
    ensures -s * (u + v) == -s * u + -1.0 * (s * v)
  {
  }

  function Factorial(n: nat): (f: nat)
    ensures f > 0
  {
    if n == 0 then 1 else n * Factorial(n - 1)
  }

  lemma {:induction false} FactorialNext(n: nat)
    ensures Factorial(n + 1) == (n + 1) * Factorial(n) && Factorial(0) == 1
  {
  }

  /** The rule gives the binomial coefficients: C(i, m) m! (i - m)! == i!. */
  lemma {:induction false} BinomIsQuotient(m: nat, i: nat)
    requires m <= i
    ensures Binom(m, i) * (Factorial(m) * Factorial(i - m)) == Factorial(i)
    decreases i
  {
    hide Factorial, Binom;
    BinomEdge(i);
    if m == 0 || m == i {
      FactorialNext(0);
    } else {
      BinomIsQuotient(m - 1, i - 1);
      BinomIsQuotient(m, i - 1);
      BinomNext(m, i - 1);
      FactorialNext(m - 1);
      FactorialNext(i - 1 - m);
      FactorialNext(i - 1);
      TwoShares(m, i - m, Binom(m - 1, i - 1), Binom(m, i - 1), Factorial(m - 1), Factorial(i - 1 - m),
                Factorial(m), Factorial(i - m), Factorial(i - 1));
    }
  }

  lemma {:induction false} BinomEdge(i: nat)
    ensures Binom(0, i) == 1 && Binom(i, i) == 1
  {
  }

  /** a of the i - 1 remaining places, and b of them, make i. */
  lemma {:induction false} TwoShares(a: nat, b: nat, u: nat, v: nat, f: nat, g: nat, af: nat, bg: nat, all: nat)
    requires af == a * f && bg == b * g
    requires u * (f * bg) == all && v * (af * g) == all
    ensures (v + u) * (af * bg) == (a + b) * all
  {
    FactorOut(u, a, f, bg);
    FactorOut(v, b, g, af);
    assert (v + u) * (af * bg) == v * (af * bg) + u * (af * bg);
    assert v * (bg * af) == v * (af * bg) && v * (g * af) == v * (af * g);
  }

  lemma {:induction false} FactorOut(u: nat, a: nat, f: nat, h: nat)
    ensures u * (a * f * h) == a * (u * (f * h))
  {
    assert a * f * h == a * (f * h);
    assert u * (a * (f * h)) == a * (u * (f * h));
  }

  // ---------- which binomial coefficients fit 32 bits ----------

  const INT32_RANGE := 0x8000_0000

  lemma {:induction false} BinomGrows(m: nat, i: nat, j: nat)
    requires i <= j
    ensures Binom(m, i) <= Binom(m, j)
    decreases j
  {
    hide Binom;
    if i < j {
      BinomGrows(m, i, j - 1);
      BinomNext(m, j - 1);
    }
  }

  lemma {:induction false} SameFactorNat(a: nat, b: nat, k: nat)
    requires k > 0 && a * k == b * k
    ensures a == b
  {
  }

  /** Neighbours in a row: C(i, m + 1) (m + 1) == C(i, m) (i - m). */
  lemma {:induction false} BinomRatio(m: nat, i: nat)
    requires m < i
    ensures Binom(m + 1, i) * (m + 1) == Binom(m, i) * (i - m)
  {
    hide Factorial, Binom;
    BinomIsQuotient(m, i);
    BinomIsQuotient(m + 1, i);
    FactorialNext(m);
    FactorialNext(i - m - 1);
    RatioOf(Binom(m, i), Binom(m + 1, i), m + 1, i - m, Factorial(m), Factorial(i - m - 1), Factorial(m + 1),
            Factorial(i - m), Factorial(i));
  }

  lemma {:induction false} RatioOf(u: nat, v: nat, a: nat, b: nat, f: nat, g: nat, af: nat, bg: nat, all: nat)
    requires f > 0 && g > 0 && af == a * f && bg == b * g
    requires u * (f * bg) == all && v * (af * g) == all
    ensures v * a == u * b
  {
    FactorOut(v, a, f, g);
    assert f * bg == b * f * g;
    FactorOut(u, b, f, g);
    assert a * (v * (f * g)) == v * a * (f * g) && b * (u * (f * g)) == u * b * (f * g);
    assert f * g > 0;
    SameFactorNat(v * a, u * b, f * g);
  }

  lemma {:induction false} Row33Step(m: nat, b: nat, c: nat)
    requires m < 33 && Binom(m, 33) == b && c * (m + 1) == b * (33 - m)
    ensures Binom(m + 1, 33) == c
  {
    hide Binom;
    BinomRatio(m, 33);
    SameFactorNat(Binom(m + 1, 33), c, m + 1);
  }

  /** The first half of the row of 33, up to the middle. */
  lemma {:induction false} Row33()
    ensures Binom(16, 33) == 1166803110 && Binom(17, 33) == 1166803110
    ensures forall m | 0 <= m <= 17 :: Binom(m, 33) < INT32_RANGE
  {
    hide Binom;
    BinomEdge(33);
    Row33Step(0, 1, 33);
    Row33Step(1, 33, 528);
    Row33Step(2, 528, 5456);
    Row33Step(3, 5456, 40920);
    Row33Step(4, 40920, 237336);
    Row33Step(5, 237336, 1107568);
    Row33Step(6, 1107568, 4272048);
    Row33Step(7, 4272048, 13884156);
    Row33Step(8, 13884156, 38567100);
    Row33Step(9, 38567100, 92561040);
    Row33Step(10, 92561040, 193536720);
    Row33Step(11, 193536720, 354817320);
    Row33Step(12, 354817320, 573166440);
    Row33Step(13, 573166440, 818809200);
    Row33Step(14, 818809200, 1037158320);
    Row33Step(15, 1037158320, 1166803110);
    Row33Step(16, 1166803110, 1166803110);
  }

  /** From the middle on the row falls. */
  lemma {:induction false} Row33Falls(m: nat)
    requires 17 <= m <= 33
    ensures Binom(m, 33) <= Binom(17, 33)
  {
    hide Binom;
    if m > 17 {
      Row33Falls(m - 1);
      BinomRatio(m - 1, 33);
      SmallerFactor(Binom(m, 33), m, Binom(m - 1, 33), 34 - m);
    }
  }

  lemma {:induction false} SmallerFactor(a: nat, p: nat, b: nat, q: nat)
    requires a * p == b * q && q < p
    ensures a <= b
  {
    if a > b { LargerProduct(a, p, b, q); }
  }

  lemma {:induction false} LargerProduct(a: nat, p: nat, b: nat, q: nat)
    requires b < a && q < p
    ensures b * q < a * p
  {
    assert a * p == b * p + (a - b) * p;
    assert b * p == b * q + b * (p - q);
    assert (a - b) * p > 0;
  }

  /** All coefficients up to row n fit an int32 exactly for n up to 33. */
  lemma {:induction false} BinomFitsInt32(n: nat)
    ensures (forall m, i | 0 <= m <= n && 0 <= i <= n :: Binom(m, i) < INT32_RANGE) <==> n <= 33
  {
    hide Binom;
    Row33();
    if n <= 33 {
      forall m, i | 0 <= m <= n && 0 <= i <= n ensures Binom(m, i) < INT32_RANGE {
        BinomGrows(m, i, 33);
        if m > 17 { Row33Falls(m); }
      }
    } else {
      BinomNext(17, 33);
      assert Binom(17, 34) == 2333606220;
      BinomGrows(17, 34, n);
    }
  }

  /** A backward difference is the alternating binomial sum; terms beyond the i-th vanish. */
  lemma {:induction false} BackDiffIsSum(f: Vector, i: nat, n: nat, count: nat)
    requires i <= n < |f| && i < count <= n + 1
    ensures BackDiff(f, i, n) == Dot(SignedRow(i, count), Backwards(f, n, count))
    decreases i
  {
    hide Dot, SignedTerm, Plus, Scale;
    if i == 0 {
      FirstOnly(count, Backwards(f, n, count));
    } else {
      var values := Backwards(f, n, count);
      BackDiffIsSum(f, i - 1, n, count);
      BackDiffIsSum(f, i - 1, n - 1, count - 1);
      SignedRowNext(i - 1, count);
      var shifted: Vector := [0.0] + SignedRow(i - 1, count - 1);
      DotComm(SignedRow(i, count), values);
      DotPlus(values, SignedRow(i - 1, count), Scale(-1.0, shifted));
      DotScale(values, -1.0, shifted);
      DotComm(values, SignedRow(i - 1, count));
      DotComm(values, shifted);
      DotHead(shifted, values);
      assert shifted[1..] == SignedRow(i - 1, count - 1);
      assert values[1..] == Backwards(f, n - 1, count - 1);
    }
  }

  lemma {:induction false} FirstTerm(m: nat)
    ensures SignedTerm(m, 0) == if m == 0 then 1.0 else 0.0
  {
    assert m > 0 ==> Binom(m, 0) == 0;
  }

  lemma {:induction false} FirstOnly(count: nat, values: Vector)
    requires |values| == count >= 1
    ensures Dot(SignedRow(0, count), values) == values[0]
  {
    hide Dot, SignedTerm;
    var r := SignedRow(0, count);
    DotHead(r, values);
    DotComm(r[1..], values[1..]);
    forall m: nat ensures SignedTerm(m, 0) == if m == 0 then 1.0 else 0.0 { FirstTerm(m); }
    DotZero(values[1..], r[1..]);
  }

  // ---------- truncated products of power series ----------

  function ShiftSeries(v: Vector): (r: Vector)
    ensures |r| == |v|
  {
    if v == [] then [] else [0.0] + v[..|v| - 1]
  }

  /** The product of a and b, as many terms of it as b has. */
  function Product(a: Vector, b: Vector): (r: Vector)
    ensures |r| == |b|
  {
    if a == [] then ZeroVector(|b|) else Plus(Scale(a[0], b), ShiftSeries(Product(a[1..], b)))
  }

  function Unit(n: nat): (r: Vector)
    ensures |r| == n
  {
    if n == 0 then [] else [1.0] + ZeroVector(n - 1)
  }

  lemma {:induction false} ProductIndex(a: Vector, b: Vector, n: nat)
    requires n < |b| && a != []
    ensures Product(a, b)[n] == a[0] * b[n] + if n == 0 then 0.0 else Product(a[1..], b)[n - 1]
  {
    ProductCons(a, b);
    hide Product;
    var scaled, rest := Scale(a[0], b), Product(a[1..], b);
    assert scaled[n] == a[0] * b[n];
    hide Scale;
    assert ShiftSeries(rest)[n] == if n == 0 then 0.0 else rest[n - 1];
  }

  /** Coefficient n of a product is the sum of a[i] * b[n - i]. */
  lemma {:induction false} ProductAt(a: Vector, b: Vector, n: nat)
    requires n < |b| && n < |a|
    ensures Product(a, b)[n] == Dot(a[..n + 1], Backwards(b, n, n + 1))
  {
    hide Product, Dot, Backwards;
    var u, v := a[..n + 1], Backwards(b, n, n + 1);
    ProductIndex(a, b, n);
    DotHead(u, v);
    SameProduct(u[0], v[0], a[0], b[n]);
    if n == 0 {
      assert u[1..] == [] && v[1..] == [];
      NoDot();
    } else {
      ProductAt(a[1..], b, n - 1);
      TailsAt(a, b, n);
    }
  }

  lemma {:induction false} TailsAt(a: Vector, b: Vector, n: nat)
    requires 1 <= n < |b| && n < |a|
    ensures a[..n + 1][1..] == a[1..][..n] && Backwards(b, n, n + 1)[1..] == Backwards(b, n - 1, n)
  {
  }

  lemma {:induction false} NoDot()
    ensures Dot([], []) == 0.0
  {
  }

  lemma {:induction false} ShiftPlus(a: Vector, b: Vector)
    requires |a| == |b|
    ensures ShiftSeries(Plus(a, b)) == Plus(ShiftSeries(a), ShiftSeries(b))
  {
  }

  lemma {:induction false} ShiftScale(s: real, a: Vector)
    ensures ShiftSeries(Scale(s, a)) == Scale(s, ShiftSeries(a))
  {
    if a != [] {
      forall i | 0 <= i < |a| ensures ShiftSeries(Scale(s, a))[i] == Scale(s, ShiftSeries(a))[i] {
        assert i > 0 ==> ShiftSeries(a)[i] == a[i - 1];
      }
    }
  }

  lemma {:induction false} ProductCons(a: Vector, b: Vector)
    requires a != []
    ensures Product(a, b) == Plus(Scale(a[0], b), ShiftSeries(Product(a[1..], b)))
  {
  }

  lemma {:induction false} ProductNil(b: Vector)
    ensures Product([], b) == ZeroVector(|b|)
    ensures Plus(ZeroVector(|b|), ZeroVector(|b|)) == ZeroVector(|b|)
    ensures forall s: real :: Scale(s, ZeroVector(|b|)) == ZeroVector(|b|)
    ensures ShiftSeries(ZeroVector(|b|)) == ZeroVector(|b|)
  {
  }

  lemma {:induction false} ProductPlus(a: Vector, b: Vector, d: Vector)
    requires |a| == |b|
    ensures Product(Plus(a, b), d) == Plus(Product(a, d), Product(b, d))
  {
    hide Plus, Scale, ShiftSeries, Product;
    if a == [] {
      ProductNil(d);
      assert b == [] && Plus(a, b) == [];
    } else {
      var u, v := Product(a[1..], d), Product(b[1..], d);
      ProductPlus(a[1..], b[1..], d);
      PlusTail(a, b);
      ProductCons(Plus(a, b), d);
      ProductCons(a, d);
      ProductCons(b, d);
      ScaleSum(a[0], b[0], d);
      ShiftPlus(u, v);
      Regroup(Scale(a[0], d), Scale(b[0], d), ShiftSeries(u), ShiftSeries(v));
    }
  }

  lemma {:induction false} ProductScale(s: real, a: Vector, d: Vector)
    ensures Product(Scale(s, a), d) == Scale(s, Product(a, d))
  {
    hide Plus, Scale, ShiftSeries, Product;
    if a == [] {
      ProductNil(d);
      assert Scale(s, a) == [];
    } else {
      var u := Product(a[1..], d);
      ProductScale(s, a[1..], d);
      ScaleTail(s, a);
      ProductCons(Scale(s, a), d);
      ProductCons(a, d);
      ScaleScale(s, a[0], Scale(s, a)[0], d);
      ShiftScale(s, u);
      ScalePlus(s, Scale(a[0], d), ShiftSeries(u));
    }
  }

  /** A leading zero moves the product along. */
  lemma {:induction false} ProductOfShift(a: Vector, d: Vector)
    requires |a| == |d|
    ensures Product(ShiftSeries(a), d) == ShiftSeries(Product(a, d))
  {
    if a != [] {
      var init := a[..|a| - 1];
      assert ShiftSeries(a)[1..] == init;
      ProductDropsLast(a, d);
      forall i | 0 <= i < |d| ensures Scale(0.0, d)[i] == 0.0 {
      }
    }
  }

  /** The last term of a full-length factor reaches only the last term of the product. */
  lemma {:induction false} ProductDropsLast(a: Vector, d: Vector)
    requires 1 <= |a| <= |d|
    ensures Product(a, d)[..|a| - 1] == Product(a[..|a| - 1], d)[..|a| - 1]
  {
    hide Product;
    var n := |a| - 1;
    if n > 0 {
      ProductDropsLast(a[1..], d);
      assert a[..n][1..] == a[1..][..n - 1];
      var u, v := Product(a[1..], d), Product(a[1..][..n - 1], d);
      forall i | 0 <= i < n ensures Product(a, d)[i] == Product(a[..n], d)[i] {
        ProductIndex(a, d, i);
        ProductIndex(a[..n], d, i);
        if i > 0 {
          assert u[..n - 1][i - 1] == v[..n - 1][i - 1];
        }
      }
    }
  }

  /** Products can be regrouped, to as many terms as are kept. */
  lemma {:induction false} ProductAssociative(a: Vector, b: Vector, d: Vector)
    requires |b| == |d|
    ensures Product(Product(a, b), d) == Product(a, Product(b, d))
  {
    hide Plus, Scale, ShiftSeries, Product;
    if a == [] {
      ProductNil(b);
      ProductNil(Product(b, d));
      ZeroProduct(|b|, d);
    } else {
      var u := Product(a[1..], b);
      ProductAssociative(a[1..], b, d);
      ProductCons(a, b);
      ProductCons(a, Product(b, d));
      ProductPlus(Scale(a[0], b), ShiftSeries(u), d);
      ProductScale(a[0], b, d);
      ProductOfShift(u, d);
    }
  }

  lemma {:induction false} ZeroProduct(n: nat, d: Vector)
    ensures Product(ZeroVector(n), d) == ZeroVector(|d|)
  {
    if n != 0 {
      ZeroProduct(n - 1, d);
      assert ZeroVector(n)[1..] == ZeroVector(n - 1);
    }
  }

  lemma {:induction false} UnitProduct(a: Vector)
    ensures Product(a, Unit(|a|)) == a
  {
    if a != [] {
      var n := |a|;
      ProductUnitPrefix(a, n);
    }
  }

  lemma {:induction false} ProductUnitPrefix(a: Vector, n: nat)
    requires 1 <= n && |a| <= n
    ensures Product(a, Unit(n)) == a + ZeroVector(n - |a|)
  {
    if a == [] {
      ProductNil(Unit(n));
    } else {
      hide Product, Plus, Scale;
      ProductUnitPrefix(a[1..], n);
      forall i | 0 <= i < n ensures Product(a, Unit(n))[i] == (a + ZeroVector(n - |a|))[i] {
        ProductIndex(a, Unit(n), i);
        assert Unit(n)[i] == if i == 0 then 1.0 else 0.0;
      }
    }
  }
}
