/** Just enough of divisibility: what divides 7 * 31 * 151 without being all of it divides two of the factors. */
module Divisors {

  ghost predicate Divides(d: nat, n: nat)
  {
    exists q: nat :: n == d * q
  }

  function Gcd(a: nat, b: nat): (g: nat)
    requires a > 0 && b > 0
    ensures 0 < g <= a && g <= b
    decreases a + b
  {
    if a == b then a else if a > b then Gcd(a - b, b) else Gcd(a, b - a)
  }

  lemma {:induction false} DividesSum(d: nat, m: nat, n: nat)
    requires Divides(d, m) && Divides(d, n)
    ensures Divides(d, m + n)
    ensures n <= m ==> Divides(d, m - n)
  {
    var p: nat :| m == d * p;
    var q: nat :| n == d * q;
    assert m + n == d * (p + q);
    if n <= m {
      if p < q { Grows(d, p, q); }
      assert m - n == d * (if p < q then 0 else p - q);
    }
  }

  lemma {:induction false} Grows(d: nat, p: nat, q: nat)
    requires p <= q
    ensures d * p <= d * q
  {
  }

  lemma {:induction false} GcdDivides(a: nat, b: nat)
    requires a > 0 && b > 0
    ensures Divides(Gcd(a, b), a) && Divides(Gcd(a, b), b)
    decreases a + b
  {
    hide Divides;
    if a == b {
      DividesSelf(a);
    } else if a > b {
      GcdDivides(a - b, b);
      DividesSum(Gcd(a, b), a - b, b);
    } else {
      GcdDivides(a, b - a);
      DividesSum(Gcd(a, b), b - a, a);
    }
  }

  lemma {:induction false} DividesSelf(a: nat)
    ensures Divides(a, a)
  {
    assert a == a * 1;
  }

  /** What divides a * n and b * n divides Gcd(a, b) * n. */
  lemma {:induction false} GcdTimes(p: nat, a: nat, b: nat, n: nat)
    requires a > 0 && b > 0 && Divides(p, a * n) && Divides(p, b * n)
    ensures Divides(p, Gcd(a, b) * n)
    decreases a + b
  {
    hide Divides;
    if a > b {
      TimesMinus(a, b, n);
      DividesSum(p, a * n, b * n);
      GcdTimes(p, a - b, b, n);
    } else if a < b {
      TimesMinus(b, a, n);
      DividesSum(p, b * n, a * n);
      GcdTimes(p, a, b - a, n);
    }
  }

  lemma {:induction false} TimesMinus(a: nat, b: nat, n: nat)
    requires b <= a
    ensures (a - b) * n == a * n - b * n && b * n <= a * n
  {
    Grows(n, b, a);
  }

  ghost predicate Prime(p: nat)
  {
    p > 1 && forall d: nat | Divides(d, p) :: d == 1 || d == p
  }

  /** Euclid's lemma. */
  lemma {:induction false} PrimeDivides(p: nat, a: nat, n: nat)
    requires Prime(p) && a > 0 && Divides(p, a * n) && !Divides(p, a)
    ensures Divides(p, n)
  {
    var g := Gcd(p, a);
    GcdDivides(p, a);
    assert g == 1;
    assert p * n == p * n;
    GcdTimes(p, p, a, n);
    assert g * n == n;
  }

  /** A factor of 7, 31 or 151 between 2 and 12 can only be 7 itself. */
  lemma {:induction false} SmallFactor(p: nat, d: nat, q: nat)
    requires p == 7 || p == 31 || p == 151
    requires p == d * q && 2 <= d <= 12
    ensures d == p
  {
    if d == 2 || d == 3 {
    } else if d == 4 || d == 5 {
    } else if d == 6 || d == 7 {
    } else if d == 8 || d == 9 {
    } else if d == 10 || d == 11 {
    }
  }

  lemma {:induction false} Factor(p: nat, d: nat, q: nat)
    requires p == 7 || p == 31 || p == 151
    requires p == d * q
    ensures d == 1 || d == p
  {
    if 2 <= d <= 12 {
      SmallFactor(p, d, q);
    } else if 2 <= q <= 12 {
      assert p == q * d;
      SmallFactor(p, q, d);
      assert d == 1;
    } else if d > 12 && q > 12 {
      ProductOver12(d, q);
    }
  }

  lemma {:induction false} ProductOver12(d: nat, q: nat)
    requires d > 12 && q > 12
    ensures d * q > 151
  {
    Grows(d, 13, q);
  }

  lemma {:induction false} SmallPrimes()
    ensures Prime(7) && Prime(31) && Prime(151)
  {
    forall p: nat, d: nat | (p == 7 || p == 31 || p == 151) && Divides(d, p) ensures d == 1 || d == p {
      var q: nat :| p == d * q;
      Factor(p, d, q);
    }
  }

  /** A proper divisor of 32767 divides 217, 1057 or 4681. */
  lemma {:induction false} ProperDivisor(m: nat)
    requires Divides(m, 32767) && m < 32767
    ensures Divides(m, 217) || Divides(m, 1057) || Divides(m, 4681)
  {
    var k: nat :| 32767 == m * k;
    if Divides(7, k) {
      Cofactor(m, k, 7, 4681);
    } else if Divides(31, k) {
      Cofactor(m, k, 31, 1057);
    } else if Divides(151, k) {
      Cofactor(m, k, 151, 217);
    } else {
      SmallPrimes();
      hide Prime, Divides;
      var a := Quotient(7, k, m, 4681);
      var b := Quotient(31, k, a, 151);
      var c := Quotient(151, k, b, 1);
      AllOfIt(m, k, a, b, c);
    }
  }

  /** 32767 == m k and p | k: m divides the rest. */
  lemma {:induction false} Cofactor(m: nat, k: nat, p: nat, rest: nat)
    requires Divides(p, k) && p > 0 && m * k == p * rest
    ensures Divides(m, rest)
  {
    var q: nat :| k == p * q;
    assert p * (m * q) == p * rest;
    Cancels(p, m * q, rest);
  }

  lemma {:induction false} Cancels(p: nat, a: nat, b: nat)
    requires p > 0 && p * a == p * b
    ensures a == b
  {
    if a < b {
      GrowsStrictly(p, a, b);
    } else if b < a {
      GrowsStrictly(p, b, a);
    }
  }

  lemma {:induction false} GrowsStrictly(p: nat, a: nat, b: nat)
    requires p > 0 && a < b
    ensures p * a < p * b
  {
    Grows(p, a + 1, b);
  }

  /** If a prime p does not divide k, it divides the other factor. */
  lemma {:induction false} Quotient(p: nat, k: nat, m: nat, rest: nat) returns (a: nat)
    requires Prime(p) && k > 0 && !Divides(p, k) && m * k == p * rest
    ensures m == p * a && a * k == rest
  {
    assert k * m == p * rest;
    PrimeDivides(p, k, m);
    a :| m == p * a;
    assert p * (a * k) == p * rest;
    Cancels(p, a * k, rest);
  }

  lemma {:induction false} AllOfIt(m: nat, k: nat, a: nat, b: nat, c: nat)
    requires m == 7 * a && a == 31 * b && b == 151 * c && c * k == 1
    ensures m == 32767
  {
    if c != 1 { Grows(c, 1, k); }
  }
}
