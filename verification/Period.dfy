/** The register of the "hdlc" CRC, clocked without input, is back where it was after 32767 clocks and not
    before. Its states stand for polynomials modulo the CRC's: cell 15 for the constant 1, each clock multiplies
    by x. */
module RegisterPeriod {
  import opened Divisors

  const PERIOD := 32767

  datatype Cells = Cells(
    b0: bool, b1: bool, b2: bool, b3: bool, b4: bool, b5: bool, b6: bool, b7: bool,
    b8: bool, b9: bool, b10: bool, b11: bool, b12: bool, b13: bool, b14: bool, b15: bool)

  const T := true
  const F := false

  /** The constant 1. */
  const ONE := Cells(F, F, F, F, F, F, F, F, F, F, F, F, F, F, F, T)

  /** One clock: the outgoing bit enters at 3, 10 and 15. */
  function Clocked(w: Cells): Cells
  {
    Cells(w.b1, w.b2, w.b3, w.b4 != w.b0, w.b5, w.b6, w.b7, w.b8,
          w.b9, w.b10, w.b11 != w.b0, w.b12, w.b13, w.b14, w.b15, w.b0)
  }

  function ClockedN(w: Cells, n: nat): Cells
  {
    if n == 0 then w else Clocked(ClockedN(w, n - 1))
  }

  /** The square of a polynomial. */
  function Squared(w: Cells): Cells
  {
    Cells(w.b2, ((w.b2 != w.b4) != w.b6) != w.b8,
          w.b3, ((w.b3 != w.b5) != w.b7) != w.b9,
          (w.b0 != w.b2) != w.b4, (w.b0 != w.b2) != w.b10,
          (w.b1 != w.b3) != w.b5, ((w.b0 != w.b1) != w.b3) != w.b11,
          ((w.b0 != w.b2) != w.b4) != w.b6, (((w.b0 != w.b1) != w.b2) != w.b4) != w.b12,
          ((w.b1 != w.b3) != w.b5) != w.b7, ((w.b1 != w.b3) != w.b5) != w.b13,
          w.b0, (((w.b0 != w.b2) != w.b4) != w.b6) != w.b14,
          w.b1, (((w.b1 != w.b3) != w.b5) != w.b7) != w.b15)
  }

  lemma {:induction false} SquaredClocked0(w: Cells)
    ensures var l, r := Squared(Clocked(w)), Clocked(Clocked(Squared(w)));
      l.b0 == r.b0 && l.b1 == r.b1 && l.b2 == r.b2 && l.b3 == r.b3
  {
  }

  lemma {:induction false} SquaredClocked4(w: Cells)
    ensures var l, r := Squared(Clocked(w)), Clocked(Clocked(Squared(w)));
      l.b4 == r.b4 && l.b5 == r.b5 && l.b6 == r.b6 && l.b7 == r.b7
  {
  }

  lemma {:induction false} SquaredClocked8(w: Cells)
    ensures var l, r := Squared(Clocked(w)), Clocked(Clocked(Squared(w)));
      l.b8 == r.b8 && l.b9 == r.b9 && l.b10 == r.b10 && l.b11 == r.b11
  {
  }

  lemma {:induction false} SquaredClocked12(w: Cells)
    ensures var l, r := Squared(Clocked(w)), Clocked(Clocked(Squared(w)));
      l.b12 == r.b12 && l.b13 == r.b13 && l.b14 == r.b14 && l.b15 == r.b15
  {
  }

  /** (x p)^2 is x^2 p^2. */
  lemma {:induction false} SquaredClocked(w: Cells)
    ensures Squared(Clocked(w)) == Clocked(Clocked(Squared(w)))
  {
    hide Squared, Clocked;
    SquaredClocked0(w);
    SquaredClocked4(w);
    SquaredClocked8(w);
    SquaredClocked12(w);
  }

  lemma {:induction false} SquaredOne()
    ensures Squared(ONE) == ONE
  {
  }

  lemma {:induction false} PowerSquared(n: nat)
    ensures ClockedN(ONE, 2 * n) == Squared(ClockedN(ONE, n))
  {
    hide Squared, Clocked;
    if n == 0 {
      SquaredOne();
    } else {
      PowerSquared(n - 1);
      SquaredClocked(ClockedN(ONE, n - 1));
      assert ClockedN(ONE, 2 * n - 1) == Clocked(ClockedN(ONE, 2 * (n - 1)));
    }
  }

  // ---------- powers of x ----------

  ghost predicate IsPower(n: nat, w: Cells)
  {
    ClockedN(ONE, n) == w
  }

  /** x^(2n) from x^n. */
  lemma {:induction false} Even(n: nat, u: Cells, w: Cells)
    requires IsPower(n, u) && Squared(u) == w
    ensures IsPower(2 * n, w)
  {
    hide Squared, Clocked;
    PowerSquared(n);
  }

  /** x^(2n + 1) from x^n. */
  lemma {:induction false} Odd(n: nat, u: Cells, w: Cells)
    requires IsPower(n, u) && Clocked(Squared(u)) == w
    ensures IsPower(2 * n + 1, w)
  {
    hide Squared, Clocked;
    PowerSquared(n);
  }

  lemma {:induction false} Start()
    ensures IsPower(1, Cells(F, F, F, F, F, F, F, F, F, F, F, F, F, F, T, F))
  {
    assert ClockedN(ONE, 0) == ONE;
  }

  lemma {:induction false} Power217()
    ensures IsPower(217, Cells(F, T, F, F, T, F, F, F, T, T, T, F, F, F, T, T))
  {
    hide IsPower;
    Start();
    Odd(1, Cells(F, F, F, F, F, F, F, F, F, F, F, F, F, F, T, F),
        Cells(F, F, F, F, F, F, F, F, F, F, F, F, T, F, F, F));
    Even(3, Cells(F, F, F, F, F, F, F, F, F, F, F, F, T, F, F, F),
         Cells(F, F, F, F, F, F, F, F, F, T, F, F, F, F, F, F));
    Odd(6, Cells(F, F, F, F, F, F, F, F, F, T, F, F, F, F, F, F),
        Cells(F, F, T, F, F, F, F, F, F, F, F, F, F, F, F, F));
    Odd(13, Cells(F, F, T, F, F, F, F, F, F, F, F, F, F, F, F, F),
        Cells(T, F, F, F, T, F, F, T, T, F, T, F, T, F, F, T));
    Even(27, Cells(T, F, F, F, T, F, F, T, T, F, T, F, T, F, F, T),
         Cells(F, F, F, T, F, F, F, T, F, T, T, F, T, F, F, F));
    Even(54, Cells(F, F, F, T, F, F, F, T, F, T, T, F, T, F, F, F),
         Cells(F, F, T, T, F, T, T, T, F, T, F, T, F, F, F, F));
    Odd(108, Cells(F, F, T, T, F, T, T, T, F, T, F, T, F, F, F, F),
        Cells(F, T, F, F, T, F, F, F, T, T, T, F, F, F, T, T));
  }

  lemma {:induction false} Power1057()
    ensures IsPower(1057, Cells(T, T, T, T, F, F, T, F, T, F, T, F, T, T, T, T))
  {
    hide IsPower;
    Start();
    Even(1, Cells(F, F, F, F, F, F, F, F, F, F, F, F, F, F, T, F),
         Cells(F, F, F, F, F, F, F, F, F, F, F, F, F, T, F, F));
    Even(2, Cells(F, F, F, F, F, F, F, F, F, F, F, F, F, T, F, F),
         Cells(F, F, F, F, F, F, F, F, F, F, F, T, F, F, F, F));
    Even(4, Cells(F, F, F, F, F, F, F, F, F, F, F, T, F, F, F, F),
         Cells(F, F, F, F, F, F, F, T, F, F, F, F, F, F, F, F));
    Even(8, Cells(F, F, F, F, F, F, F, T, F, F, F, F, F, F, F, F),
         Cells(F, F, F, T, F, F, F, F, F, F, T, F, F, F, F, T));
    Odd(16, Cells(F, F, F, T, F, F, F, F, F, F, T, F, F, F, F, T),
        Cells(F, T, T, F, T, T, T, F, F, T, T, F, F, F, F, F));
    Even(33, Cells(F, T, T, F, T, T, T, F, F, T, T, F, F, F, F, F),
         Cells(T, T, F, F, F, F, F, T, T, T, F, F, F, T, T, F));
    Even(66, Cells(T, T, F, F, F, F, F, T, T, T, F, F, F, T, T, F),
         Cells(F, T, F, F, T, T, T, F, T, F, F, F, T, F, T, F));
    Even(132, Cells(F, T, F, F, T, T, T, F, T, F, F, F, T, F, T, F),
         Cells(F, T, F, T, T, F, F, T, F, T, F, F, F, T, T, F));
    Even(264, Cells(F, T, F, T, T, F, F, T, F, T, F, F, F, T, T, F),
         Cells(F, T, T, T, T, F, F, F, T, F, T, T, F, F, T, T));
    Odd(528, Cells(F, T, T, T, T, F, F, F, T, F, T, T, F, F, T, T),
        Cells(T, T, T, T, F, F, T, F, T, F, T, F, T, T, T, T));
  }

  lemma {:induction false} Power4681()
    ensures IsPower(4681, Cells(F, F, T, F, T, T, F, F, F, T, F, F, F, F, T, F))
  {
    hide IsPower;
    Start();
    Even(1, Cells(F, F, F, F, F, F, F, F, F, F, F, F, F, F, T, F),
         Cells(F, F, F, F, F, F, F, F, F, F, F, F, F, T, F, F));
    Even(2, Cells(F, F, F, F, F, F, F, F, F, F, F, F, F, T, F, F),
         Cells(F, F, F, F, F, F, F, F, F, F, F, T, F, F, F, F));
    Odd(4, Cells(F, F, F, F, F, F, F, F, F, F, F, T, F, F, F, F),
        Cells(F, F, F, F, F, F, T, F, F, F, F, F, F, F, F, F));
    Even(9, Cells(F, F, F, F, F, F, T, F, F, F, F, F, F, F, F, F),
         Cells(F, T, F, F, F, F, F, F, T, F, F, F, F, T, F, F));
    Even(18, Cells(F, T, F, F, F, F, F, F, T, F, F, F, F, T, F, F),
         Cells(F, T, F, F, F, F, T, T, F, T, T, F, F, F, T, T));
    Odd(36, Cells(F, T, F, F, F, F, T, T, F, T, T, F, F, F, T, T),
        Cells(T, F, F, F, T, T, T, T, T, F, T, F, F, T, T, F));
    Even(73, Cells(T, F, F, F, T, T, T, T, T, F, T, F, F, T, T, F),
         Cells(F, T, F, F, F, F, T, T, T, F, F, F, T, F, F, F));
    Even(146, Cells(F, T, F, F, F, F, T, T, T, F, F, F, T, F, F, F),
         Cells(F, F, F, T, F, F, T, T, T, F, F, T, F, T, T, F));
    Odd(292, Cells(F, F, F, T, F, F, T, T, T, F, F, T, F, T, T, F),
        Cells(F, T, F, F, F, T, F, T, F, F, F, F, F, F, F, F));
    Even(585, Cells(F, T, F, F, F, T, F, T, F, F, F, F, F, F, F, F),
         Cells(F, F, F, F, F, F, F, T, F, T, T, F, F, F, T, T));
    Even(1170, Cells(F, F, F, F, F, F, F, T, F, T, T, F, F, F, T, T),
         Cells(F, F, F, F, F, T, F, F, F, F, T, F, F, T, F, F));
    Odd(2340, Cells(F, F, F, F, F, T, F, F, F, F, T, F, F, T, F, F),
        Cells(F, F, T, F, T, T, F, F, F, T, F, F, F, F, T, F));
  }

  lemma {:induction false} Power32768()
    ensures IsPower(32768, Cells(F, F, F, F, F, F, F, F, F, F, F, F, F, F, T, F))
  {
    hide IsPower;
    Start();
    Even(1, Cells(F, F, F, F, F, F, F, F, F, F, F, F, F, F, T, F),
         Cells(F, F, F, F, F, F, F, F, F, F, F, F, F, T, F, F));
    Even(2, Cells(F, F, F, F, F, F, F, F, F, F, F, F, F, T, F, F),
         Cells(F, F, F, F, F, F, F, F, F, F, F, T, F, F, F, F));
    Even(4, Cells(F, F, F, F, F, F, F, F, F, F, F, T, F, F, F, F),
         Cells(F, F, F, F, F, F, F, T, F, F, F, F, F, F, F, F));
    Even(8, Cells(F, F, F, F, F, F, F, T, F, F, F, F, F, F, F, F),
         Cells(F, F, F, T, F, F, F, F, F, F, T, F, F, F, F, T));
    Even(16, Cells(F, F, F, T, F, F, F, F, F, F, T, F, F, F, F, T),
         Cells(F, F, T, T, F, T, T, T, F, F, T, T, F, F, F, F));
    Even(32, Cells(F, F, T, T, F, T, T, T, F, F, T, T, F, F, F, F),
         Cells(T, F, T, T, T, F, F, F, F, T, T, F, F, F, F, T));
    Even(64, Cells(T, F, T, T, T, F, F, F, F, T, T, F, F, F, F, T),
         Cells(T, F, T, F, T, T, T, F, T, T, T, T, T, T, F, F));
    Even(128, Cells(T, F, T, F, T, T, T, F, T, T, T, T, T, T, F, F),
         Cells(T, F, F, F, T, T, T, F, F, F, T, F, T, F, F, T));
    Even(256, Cells(T, F, F, F, T, T, T, F, F, F, T, F, T, F, F, T),
         Cells(F, F, F, T, F, F, T, T, T, T, T, T, T, T, F, F));
    Even(512, Cells(F, F, F, T, F, F, T, T, T, T, T, T, T, T, F, F),
         Cells(F, F, T, T, F, T, T, F, T, T, F, F, F, T, F, F));
    Even(1024, Cells(F, F, T, T, F, T, T, F, T, T, F, F, F, T, F, F),
         Cells(T, T, T, T, T, T, F, T, F, T, F, T, F, F, F, F));
    Even(2048, Cells(T, T, T, T, T, T, F, T, F, T, F, T, F, F, F, F),
         Cells(T, F, T, F, T, F, T, F, T, F, F, T, T, T, T, F));
    Even(4096, Cells(T, F, T, F, T, F, T, F, T, F, F, T, T, T, T, F),
         Cells(T, F, F, F, T, F, F, F, F, F, F, T, T, T, F, F));
    Even(8192, Cells(T, F, F, F, T, F, F, F, F, F, F, T, T, T, F, F),
         Cells(F, T, F, F, F, T, F, F, F, T, F, T, T, F, F, F));
    Even(16384, Cells(F, T, F, F, F, T, F, F, F, T, F, T, T, F, F, F),
         Cells(F, F, F, F, F, F, F, F, F, F, F, F, F, F, T, F));
  }

  // ---------- when the register is back ----------

  ghost predicate Returns(n: nat)
  {
    ClockedN(ONE, n) == ONE
  }

  lemma {:induction false} ClockedInjective(u: Cells, v: Cells)
    requires Clocked(u) == Clocked(v)
    ensures u == v
  {
  }

  lemma {:induction false} ClockedNInjective(u: Cells, v: Cells, n: nat)
    requires ClockedN(u, n) == ClockedN(v, n)
    ensures u == v
  {
    hide Clocked;
    if n > 0 {
      ClockedInjective(ClockedN(u, n - 1), ClockedN(v, n - 1));
      ClockedNInjective(u, v, n - 1);
    }
  }

  lemma {:induction false} ClockedTwice(w: Cells, m: nat, n: nat)
    ensures ClockedN(ClockedN(w, m), n) == ClockedN(w, m + n)
  {
    hide Clocked;
    if n > 0 { ClockedTwice(w, m, n - 1); }
  }

  lemma {:induction false} ReturnsMinus(a: nat, b: nat)
    requires Returns(a) && Returns(b) && b <= a
    ensures Returns(a - b)
  {
    hide Clocked;
    ClockedTwice(ONE, a - b, b);
    ClockedNInjective(ClockedN(ONE, a - b), ONE, b);
  }

  lemma {:induction false} ReturnsTimes(n: nat, k: nat)
    requires Returns(n)
    ensures Returns(n * k)
  {
    hide Clocked;
    if k > 0 {
      ReturnsTimes(n, k - 1);
      ClockedTwice(ONE, n * (k - 1), n);
      assert n * (k - 1) + n == n * k;
    }
  }

  lemma {:induction false} ReturnsAfterPeriod()
    ensures Returns(PERIOD) && !Returns(217) && !Returns(1057) && !Returns(4681)
  {
    hide Clocked;
    Start();
    Power32768();
    Power217();
    Power1057();
    Power4681();
    ClockedTwice(ONE, PERIOD, 1);
    ClockedNInjective(ClockedN(ONE, PERIOD), ONE, 1);
  }

  lemma {:induction false} ReturnsGcd(a: nat, b: nat)
    requires a > 0 && b > 0 && Returns(a) && Returns(b)
    ensures Returns(Gcd(a, b))
    decreases a + b
  {
    hide Returns;
    if a > b {
      ReturnsMinus(a, b);
      ReturnsGcd(a - b, b);
    } else if a < b {
      ReturnsMinus(b, a);
      ReturnsGcd(a, b - a);
    }
  }

  lemma {:induction false} ReturnsMultiple(m: nat, n: nat)
    requires Returns(m) && Divides(m, n)
    ensures Returns(n)
  {
    hide Returns;
    var k: nat :| n == m * k;
    ReturnsTimes(m, k);
  }

  /** Before its period the register never comes back. */
  lemma {:induction false} NoEarlierReturn(d: nat)
    requires 0 < d < PERIOD
    ensures !Returns(d)
  {
    hide Returns, Divides;
    ReturnsAfterPeriod();
    if Returns(d) {
      var m := Gcd(d, PERIOD);
      ReturnsGcd(d, PERIOD);
      GcdDivides(d, PERIOD);
      ProperDivisor(m);
      if Divides(m, 217) {
        ReturnsMultiple(m, 217);
      } else if Divides(m, 1057) {
        ReturnsMultiple(m, 1057);
      } else {
        ReturnsMultiple(m, 4681);
      }
    }
  }

  /** The register is back after the multiples of its period, and after nothing else. */
  lemma {:induction false} ReturnsExactly(d: nat)
    ensures Returns(d) <==> d % PERIOD == 0
  {
    hide Returns;
    var k, r := d / PERIOD, d % PERIOD;
    assert d == PERIOD * k + r;
    ReturnsAfterPeriod();
    ReturnsTimes(PERIOD, k);
    if Returns(d) {
      ReturnsMinus(d, PERIOD * k);
      if r > 0 { NoEarlierReturn(r); }
    }
  }

  lemma {:induction false} LastCell()
    ensures ClockedN(ONE, 15) == Cells(T, F, F, F, F, F, F, F, F, F, F, F, F, F, F, F)
  {
    hide IsPower;
    Start();
    Odd(1, Cells(F, F, F, F, F, F, F, F, F, F, F, F, F, F, T, F),
        Cells(F, F, F, F, F, F, F, F, F, F, F, F, T, F, F, F));
    Odd(3, Cells(F, F, F, F, F, F, F, F, F, F, F, F, T, F, F, F),
        Cells(F, F, F, F, F, F, F, F, T, F, F, F, F, F, F, F));
    Odd(7, Cells(F, F, F, F, F, F, F, F, T, F, F, F, F, F, F, F),
        Cells(T, F, F, F, F, F, F, F, F, F, F, F, F, F, F, F));
    PowerIs(15, Cells(T, F, F, F, F, F, F, F, F, F, F, F, F, F, F, F));
  }

  lemma {:induction false} PowerIs(n: nat, w: Cells)
    requires IsPower(n, w)
    ensures ClockedN(ONE, n) == w
  {
  }

  /** The same for the bit just before it leaves the register, which stands for x^15. */
  lemma {:induction false} LastCellReturns(d: nat)
    ensures ClockedN(ClockedN(ONE, 15), d) == ClockedN(ONE, 15) <==> d % PERIOD == 0
  {
    hide Clocked;
    ReturnsExactly(d);
    ClockedTwice(ONE, 15, d);
    ClockedTwice(ONE, d, 15);
    if ClockedN(ONE, 15 + d) == ClockedN(ONE, 15) {
      ClockedNInjective(ClockedN(ONE, d), ONE, 15);
    }
  }
}
