/** evaluate_poly_slope and rv_evaluate_poly_deriv of mathlib.cpp: derivatives of any order. */
module Derivatives {
  import opened Vectors
  import opened Polynomials

  const UINT32_RANGE := 0x1_0000_0000

  // ---------- derivatives of polynomials ----------

  function Scaled(n: nat, c: real): real
  {
    n as real * c
  }

  function Derivative(p: Vector): (r: Vector)
    ensures |r| == if p == [] then 0 else |p| - 1
    ensures forall i | 0 <= i < |r| :: r[i] == Scaled(i + 1, p[i + 1])
  {
    if p == [] then [] else seq(|p| - 1, i requires 0 <= i < |p| - 1 => Scaled(i + 1, p[i + 1]))
  }

  function DerivativeN(p: Vector, order: nat): (r: Vector)
    ensures |r| == if |p| <= order then 0 else |p| - order
  {
    if order == 0 then p else Derivative(DerivativeN(p, order - 1))
  }

  lemma {:induction false} OneMore(i: nat, c: real)
    ensures Scaled(i + 1, c) == c + Scaled(i, c) && Scaled(0, c) == 0.0
  {
  }

  lemma {:induction false} DerivativeSplits(p: Vector)
    requires |p| > 1
    ensures Derivative(p) == Plus(p[1..], [0.0] + Derivative(p[1..]))
  {
    hide Derivative, Plus, Scaled;
    var w := p[1..];
    var shifted: Vector := [0.0] + Derivative(w);
    forall i | 0 <= i < |w| ensures Derivative(p)[i] == Plus(w, shifted)[i] {
      OneMore(i, w[i]);
    }
  }

  lemma {:induction false} ProductRule(p: Vector, s: real)
    requires |p| > 1
    ensures Eval(Derivative(p), s) == Eval(p[1..], s) + s * Eval(Derivative(p[1..]), s)
  {
    hide Eval, Derivative, Plus;
    var shifted: Vector := [0.0] + Derivative(p[1..]);
    DerivativeSplits(p);
    EvalPlus(p[1..], shifted, s);
    EvalCons(shifted, s);
    assert shifted[1..] == Derivative(p[1..]);
  }

  /** The derivative at s is what the slope of the secant from s to t, itself a polynomial in t, gives at s. */
  lemma {:induction false} DerivativeIsSlopeOfSecants(p: Vector, s: real)
    ensures forall t :: Eval(p, t) - Eval(p, s) == (t - s) * Eval(Quot(p, s), t)
    ensures Eval(Derivative(p), s) == Eval(Quot(p, s), s)
  {
    hide Eval, Quot, Derivative;
    forall t ensures Eval(p, t) - Eval(p, s) == (t - s) * Eval(Quot(p, s), t) {
      QuotDivides(p, s, t);
    }
    TangentSlope(p, s);
  }

  lemma {:induction false} TangentSlope(p: Vector, s: real)
    ensures Eval(Derivative(p), s) == Eval(Quot(p, s), s)
  {
    hide Eval, Quot, Derivative;
    if |p| <= 1 {
      EvalShort(p, s, s);
      EvalNil(s);
      assert Derivative(p) == [];
    } else {
      ProductRule(p, s);
      TangentSlope(p[1..], s);
      QuotCons(p, s);
      EvalCons(Quot(p, s), s);
      assert Quot(p, s)[1..] == Quot(p[1..], s);
    }
  }

  // ---------- coefficients ----------

  /** n (n - 1) ... (n - k + 1) */
  function Falling(n: nat, k: nat): nat
  {
    if k == 0 then 1 else if k > n then 0 else Falling(n, k - 1) * (n - k + 1)
  }

  lemma {:induction false} ScaledTwice(n: nat, f: nat, c: real)
    ensures Scaled(n, Scaled(f, c)) == Scaled(f * n, c)
  {
    assert (f * n) as real == f as real * n as real;
    Associate(n as real, f as real, c);
    SameProduct(n as real, f as real, n as real, f as real);
  }

  lemma {:induction false} CoefficientOf(p: Vector, order: nat, i: nat)
    requires i + order < |p|
    ensures DerivativeN(p, order)[i] == Scaled(Falling(i + order, order), p[i + order])
    decreases order
  {
    hide Falling, Derivative, Scaled;
    if order == 0 {
      FallingNext(i, 0);
      ScaledOnce(p[i]);
    } else {
      CoefficientOf(p, order - 1, i + 1);
      FallingNext(i + order, order);
      ScaledTwice(i + 1, Falling(i + order, order - 1), p[i + order]);
    }
  }

  lemma {:induction false} ScaledOnce(c: real)
    ensures Scaled(1, c) == c
  {
  }

  lemma {:induction false} FallingNext(n: nat, k: nat)
    requires k <= n
    ensures Falling(n, k) == if k == 0 then 1 else Falling(n, k - 1) * (n - k + 1)
  {
  }

  lemma {:induction false} FallingGrows(n: nat, m: nat, k: nat)
    requires n <= m
    ensures Falling(n, k) <= Falling(m, k)
  {
    if 0 < k <= n {
      FallingGrows(n, m, k - 1);
      ProductGrows(Falling(n, k - 1), Falling(m, k - 1), n - k + 1, m - k + 1);
    }
  }

  lemma {:induction false} ProductGrows(a: nat, b: nat, c: nat, d: nat)
    requires a <= b && c <= d
    ensures a * c <= b * d
  {
    assert a * c <= b * c <= b * d;
  }

  // ---------- the code ----------

  /** The derivative with its factors cut to 32 bits, as the code computes them. */
  function WrappedDerivative(p: Vector, order: nat): (r: Vector)
    ensures |r| == if |p| <= order then 0 else |p| - order
    ensures forall i | 0 <= i < |r| :: r[i] == Scaled(Falling(i + order, order) % UINT32_RANGE, p[i + order])
  {
    if |p| <= order then []
    else seq(|p| - order, i requires 0 <= i < |p| - order => Scaled(Falling(i + order, order) % UINT32_RANGE, p[i + order]))
  }

  lemma {:induction false} WrappedProduct(a: nat, b: nat)
    ensures a % UINT32_RANGE * b % UINT32_RANGE == a * b % UINT32_RANGE
  {
    var q, r := a / UINT32_RANGE, a % UINT32_RANGE;
    assert a * b == (q * UINT32_RANGE + r) * b == q * b * UINT32_RANGE + r * b;
    WrapAround(q * b, r * b);
  }

  lemma {:induction false} WrapAround(k: nat, c: nat)
    ensures (k * UINT32_RANGE + c) % UINT32_RANGE == c % UINT32_RANGE
  {
  }

  method FallingFactor(n: nat, order: nat) returns (factorial: nat)
    requires order <= n
    ensures factorial == Falling(n, order) % UINT32_RANGE
  {
    factorial := 1;
    for j := 0 to order
      invariant factorial == Falling(n, j) % UINT32_RANGE
    {
      WrappedProduct(Falling(n, j), n - j);
      factorial := factorial * (n - j) % UINT32_RANGE;
    }
  }

  /** The cut to an int16. */
  function Int16(n: int): (r: int)
    ensures -32768 <= r < 32768
  {
    (n + 32768) % 65536 - 32768
  }

  /** The coefficients used beside the highest: from 32770 coefficients on the counter starts too low. */
  function Lower(parms: Vector): (r: Vector)
    requires parms != []
    ensures |parms| <= 32769 ==> r == parms[..|parms| - 1]
  {
    parms[..if Int16(|parms| - 2) + 1 > 0 then Int16(|parms| - 2) + 1 else 0]
  }

  /** The terms that the code adds up. */
  function UsedTerms(parms: Vector, order: nat): (d: Vector)
    requires |parms| > order
  {
    WrappedDerivative(Lower(parms), order) +
    [Scaled(Falling(|parms| - 1, order) % UINT32_RANGE, parms[|parms| - 1])]
  }

  lemma {:induction false} AllTermsUsed(parms: Vector, order: nat)
    requires order < |parms| <= 32769
    ensures UsedTerms(parms, order) == WrappedDerivative(parms, order)
  {
    hide Falling, Scaled;
  }

  /** What rv_evaluate_poly_deriv gives for one axis. */
  function ComputedDerivative(parms: Vector, order: nat, x: real): real
  {
    if |parms| <= order then 0.0 else Eval(UsedTerms(parms, order), x)
  }

  /** rv_evaluate_poly_deriv, for one axis. */
  method EvaluateDerivative(x: real, parms: Vector, order: nat) returns (result: real)
    requires order < 65535 || |parms| <= order
    ensures |parms| <= 32769 ==> result == Eval(WrappedDerivative(parms, order), x)
    ensures result == ComputedDerivative(parms, order, x)
  {
    hide Eval, Falling, Scaled, WrappedDerivative;
    if |parms| <= order {
      EvalNil(x);
      return 0.0;
    }
    ghost var d := UsedTerms(parms, order);
    if |parms| <= 32769 { AllTermsUsed(parms, order); }
    var factorial := FallingFactor(|parms| - 1, order);
    result := Scaled(factorial, parms[|parms| - 1]);
    var i := Int16(|parms| - 2);
    EvalCons(d[|d| - 1..], x);
    EvalNil(x);
    assert d[|d| - 1..][1..] == [];
    while i + 1 > order
      invariant i <= |parms| - 2 && (i + 1 <= order || i < |Lower(parms)|)
      invariant result == Eval(d[if i + 1 > order then i + 1 - order else 0..], x)
      decreases i
    {
      factorial := FallingFactor(i, order);
      HornerStep(d, i + 1 - order, x, result, Scaled(factorial, parms[i]));
      result := result * x;
      result := result + Scaled(factorial, parms[i]);
      i := i - 1;
    }
    assert d[0..] == d;
  }

  lemma {:induction false} NothingWrapped(p: Vector, order: nat)
    requires |p| <= order || Falling(|p| - 1, order) < UINT32_RANGE
    ensures WrappedDerivative(p, order) == DerivativeN(p, order)
  {
    hide Falling, DerivativeN, WrappedDerivative, Scaled;
    forall i | 0 <= i < |p| - order ensures WrappedDerivative(p, order)[i] == DerivativeN(p, order)[i] {
      CoefficientOf(p, order, i);
      FallingGrows(i + order, |p| - 1, order);
    }
  }

  /** The polynomial t^k among those of a size. */
  function Monomial(size: nat, k: nat): (p: Vector)
    requires k < size
    ensures |p| == size && forall i | 0 <= i < size :: p[i] == if i == k then 1.0 else 0.0
  {
    ZeroVector(k) + [1.0] + ZeroVector(size - k - 1)
  }

  lemma {:induction false} ScaledZero(n: nat)
    ensures Scaled(n, 0.0) == 0.0
  {
  }

  /** A single coefficient is the value at 1. */
  lemma {:induction false} EvalSingle(d: Vector, k: nat)
    requires k < |d| && forall i | 0 <= i < |d| && i != k :: d[i] == 0.0
    ensures Eval(d, 1.0) == d[k]
    decreases k
  {
    hide Eval;
    EvalCons(d, 1.0);
    if k == 0 {
      EvalZero(d[1..], 1.0);
    } else {
      EvalSingle(d[1..], k - 1);
    }
  }

  lemma {:induction false} DerivativeOfMonomial(size: nat, k: nat, order: nat)
    requires order <= k < size
    ensures Eval(DerivativeN(Monomial(size, k), order), 1.0) == Falling(k, order) as real
  {
    hide Eval, DerivativeN, Scaled, Falling;
    var p := Monomial(size, k);
    var d := DerivativeN(p, order);
    forall i | 0 <= i < |d| ensures d[i] == if i == k - order then Falling(k, order) as real else 0.0 {
      CoefficientOf(p, order, i);
      TimesOne(Falling(i + order, order));
      ScaledZero(Falling(i + order, order));
    }
    EvalSingle(d, k - order);
  }

  /** What the code gives for t^k when k is the degree, or is passed over. */
  lemma {:induction false} ComputedMonomial(size: nat, k: nat, order: nat)
    requires order < size && k < size && |Lower(Monomial(size, k))| <= k
    ensures ComputedDerivative(Monomial(size, k), order, 1.0) ==
            if k == size - 1 then (Falling(k, order) % UINT32_RANGE) as real else 0.0
  {
    hide Eval, Scaled, Falling, Lower;
    var p := Monomial(size, k);
    var low, d := WrappedDerivative(Lower(p), order), UsedTerms(p, order);
    LowerIsPrefix(p);
    forall i | 0 <= i < |low| ensures low[i] == 0.0 {
      ScaledZero(Falling(i + order, order) % UINT32_RANGE);
    }
    TimesOne(Falling(size - 1, order) % UINT32_RANGE);
    ScaledZero(Falling(size - 1, order) % UINT32_RANGE);
    EvalSingle(d, |d| - 1);
  }

  lemma {:induction false} LowerIsPrefix(p: Vector)
    requires p != []
    ensures var n := |Lower(p)|; n <= |p| - 1 && Lower(p) == p[..n]
    ensures |p| > 32769 ==> |Lower(p)| <= |p| - 2
  {
  }

  lemma {:induction false} LargeFactor(n: nat, f: nat)
    requires n >= 1
    ensures n * f >= f && f * n >= f
  {
  }

  lemma {:induction false} FallingPositive(n: nat, k: nat)
    requires k <= n
    ensures Falling(n, k) > 0
  {
    if k > 0 {
      hide Falling;
      FallingNext(n, k);
      FallingPositive(n, k - 1);
      LargeFactor(n - k + 1, Falling(n, k - 1));
    } else {
      FallingNext(n, 0);
    }
  }

  /** 13 factorial does not fit. */
  lemma {:induction false} ThirteenFactorial()
    ensures Falling(13, 13) >= UINT32_RANGE
  {
    assert Falling(13, 4) == 17160;
    assert Falling(13, 8) == 51891840;
    assert Falling(13, 12) == 6227020800;
  }

  lemma {:induction false} FactorialTooLarge(n: nat)
    requires n >= 13
    ensures Falling(n, n) >= UINT32_RANGE
    decreases n
  {
    hide Falling;
    if n == 13 {
      ThirteenFactorial();
    } else {
      FactorialTooLarge(n - 1);
      FallingTop(n, n);
      LargeFactor(n, Falling(n - 1, n - 1));
    }
  }

  /** The first factor taken out. */
  lemma {:induction false} FallingTop(n: nat, k: nat)
    requires 1 <= k <= n
    ensures Falling(n, k) == n * Falling(n - 1, k - 1)
    decreases k
  {
    hide Falling;
    FallingNext(n, k);
    FallingNext(n, 0);
    FallingNext(n - 1, 0);
    if k > 1 {
      FallingTop(n, k - 1);
      FallingNext(n - 1, k - 1);
      Regrouped(n, Falling(n - 1, k - 2), n - k + 1);
    }
  }

  lemma {:induction false} Regrouped(a: nat, b: nat, c: nat)
    ensures a * b * c == a * (b * c)
  {
  }

  /** The code computes the derivative, for all polynomials of a size, exactly when its counter reaches all
      terms and the factor of the highest term fits 32 bits. */
  lemma {:induction false} DerivativeExactly(size: nat, order: nat)
    ensures (forall p: Vector, x: real | |p| == size ::
               ComputedDerivative(p, order, x) == Eval(DerivativeN(p, order), x))
       <==> size <= order || (size <= 32769 && Falling(size - 1, order) < 0x1_0000_0000)
  {
    hide Falling, DerivativeN, WrappedDerivative, Scaled, Eval, UsedTerms, Lower;
    if size <= order || (size <= 32769 && Falling(size - 1, order) < UINT32_RANGE) {
      forall p: Vector, x: real | |p| == size
        ensures ComputedDerivative(p, order, x) == Eval(DerivativeN(p, order), x)
      {
        NothingWrapped(p, order);
        EvalNil(x);
        if size > order {
          AllTermsUsed(p, order);
        }
      }
    } else {
      var k := if size > 32769 && order < size - 1 then size - 2 else size - 1;
      var p := Monomial(size, k);
      LowerIsPrefix(p);
      ComputedMonomial(size, k, order);
      DerivativeOfMonomial(size, k, order);
      FallingPositive(k, order);
      if size > 32769 && order == size - 1 {
        FactorialTooLarge(k);
      }
      assert ComputedDerivative(p, order, 1.0) != Eval(DerivativeN(p, order), 1.0);
    }
  }

  lemma {:induction false} TimesOne(n: nat)
    ensures Scaled(n, 1.0) == n as real
  {
  }

  /** The terms that evaluate_poly_slope adds up: from 65538 coefficients on its uint16 counter starts too low. */
  function SlopeTerms(parms: Vector): (d: Vector)
    requires |parms| >= 2
    ensures |parms| <= 65537 ==> d == Derivative(parms)
  {
    Derivative(parms[..(|parms| - 2) % 65536 + 1]) + [Scaled(|parms| - 1, parms[|parms| - 1])]
  }

  lemma {:induction false} SlopeTermAt(parms: Vector, i: nat)
    requires |parms| >= 2 && 1 <= i <= (|parms| - 2) % 65536
    ensures |SlopeTerms(parms)| == (|parms| - 2) % 65536 + 1 && SlopeTerms(parms)[i - 1] == Scaled(i, parms[i])
  {
    hide Scaled;
  }

  /** Of a polynomial of 32770 coefficients only the highest is used: the constant 1 gives 0. */
  lemma {:induction false} LostConstant()
    ensures ComputedDerivative(Monomial(32770, 0), 0, 1.0) == 0.0
    ensures Eval(DerivativeN(Monomial(32770, 0), 0), 1.0) == 1.0
  {
    hide Eval, Falling;
    FallingNext(0, 0);
    ComputedMonomial(32770, 0, 0);
    DerivativeOfMonomial(32770, 0, 0);
  }

  /** What evaluate_poly_slope gives. */
  function ComputedSlope(parms: Vector, x: real): real
  {
    if |parms| < 2 then 0.0 else Eval(SlopeTerms(parms), x)
  }

  /** evaluate_poly_slope */
  method EvaluateSlope(x: real, parms: Vector) returns (result: real)
    ensures |parms| <= 65537 ==> result == Eval(Derivative(parms), x)
    ensures result == ComputedSlope(parms, x)
  {
    hide Eval, Scaled, Derivative;
    EvalNil(x);
    if |parms| < 2 {
      return 0.0;
    }
    ghost var d := SlopeTerms(parms);
    result := Scaled(|parms| - 1, parms[|parms| - 1]);
    var i := (|parms| - 2) % 65536;
    EvalCons(d[|d| - 1..], x);
    assert d[|d| - 1..][1..] == [];
    while i > 0
      invariant 0 <= i <= |d| - 1 && result == Eval(d[i..], x)
    {
      SlopeTermAt(parms, i);
      HornerStep(d, i, x, result, Scaled(i, parms[i]));
      result := result * x;
      result := result + Scaled(i, parms[i]);
      i := i - 1;
    }
    assert d[0..] == d;
  }

  /** The code computes the derivative, for all polynomials of a size, exactly when its counter reaches all
      terms. */
  lemma {:induction false} SlopeExactly(size: nat)
    ensures (forall p: Vector, x: real | |p| == size :: ComputedSlope(p, x) == Eval(Derivative(p), x))
       <==> size <= 65537
  {
    hide Derivative, Scaled, Eval, SlopeTerms;
    if size <= 65537 {
      forall p: Vector, x: real | |p| == size ensures ComputedSlope(p, x) == Eval(Derivative(p), x) {
        EvalNil(x);
        assert size < 2 ==> Derivative(p) == [];
      }
    } else {
      SlopeOfMonomial(size);
      assert ComputedSlope(Monomial(size, size - 2), 1.0) != Eval(Derivative(Monomial(size, size - 2)), 1.0);
    }
  }

  /** The slope of t^(size - 2), which the code passes over. */
  lemma {:induction false} SlopeOfMonomial(size: nat)
    requires size > 65537
    ensures var p := Monomial(size, size - 2);
            ComputedSlope(p, 1.0) == 0.0 && Eval(Derivative(p), 1.0) == (size - 2) as real
  {
    hide Scaled, Eval;
    var p := Monomial(size, size - 2);
    var d, e := SlopeTerms(p), Derivative(p);
    forall i: nat ensures Scaled(i, 0.0) == 0.0 {
      ScaledZero(i);
    }
    EvalZero(d, 1.0);
    TimesOne(size - 2);
    EvalSingle(e, size - 3);
  }
}
