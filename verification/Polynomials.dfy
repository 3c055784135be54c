/** Polynomials by their coefficients, lowest first, and their roots. */
module Polynomials {
  import opened Vectors

  function Eval(p: Vector, t: real): real
  {
    if p == [] then 0.0 else p[0] + t * Eval(p[1..], t)
  }

  function Pow(t: real, n: nat): real
  {
    if n == 0 then 1.0 else Pow(t, n - 1) * t
  }

  /** 1, t, t^2, ... */
  function Powers(t: real, n: nat): (r: Vector)
    ensures |r| == n && forall i | 0 <= i < n :: r[i] == Pow(t, i)
  {
    seq(n, i requires 0 <= i < n => Pow(t, i))
  }

  lemma {:induction false} PowStep(t: real, n: nat)
    ensures Pow(t, n + 1) == Pow(t, n) * t && Pow(t, 0) == 1.0
  {
  }

  lemma {:induction false} Associate(a: real, b: real, c: real)
    ensures a * (b * c) == (a * b) * c
  {
  }

  lemma {:induction false} PowAdd(t: real, m: nat, n: nat)
    ensures Pow(t, m + n) == Pow(t, m) * Pow(t, n)
  {
    hide Pow;
    PowStep(t, 0);
    if n != 0 {
      PowAdd(t, m, n - 1);
      PowStep(t, m + n - 1);
      PowStep(t, n - 1);
      Associate(Pow(t, m), Pow(t, n - 1), t);
    }
  }

  lemma {:induction false} EvalNil(t: real)
    ensures Eval([], t) == 0.0
  {
  }

  lemma {:induction false} EvalCons(p: Vector, t: real)
    requires p != []
    ensures Eval(p, t) == p[0] + t * Eval(p[1..], t)
  {
  }

  /** One step of the evaluation from the highest coefficient down. */
  lemma {:induction false} HornerStep(d: Vector, i: nat, x: real, before: real, term: real)
    requires 1 <= i <= |d| && before == Eval(d[i..], x) && term == d[i - 1]
    ensures before * x + term == Eval(d[i - 1..], x)
  {
    hide Eval;
    EvalCons(d[i - 1..], x);
    assert d[i - 1..][1..] == d[i..];
  }

  lemma {:induction false} PowersTail(t: real, n: nat)
    requires n >= 1
    ensures Powers(t, n)[0] == 1.0 && Powers(t, n)[1..] == Scale(t, Powers(t, n - 1))
  {
    hide Pow;
    PowStep(t, 0);
    forall i | 0 <= i < n - 1 ensures Powers(t, n)[1..][i] == Scale(t, Powers(t, n - 1))[i] {
      PowStep(t, i);
    }
  }

  lemma {:induction false} EvalIsDot(p: Vector, t: real)
    ensures Eval(p, t) == Dot(Powers(t, |p|), p)
  {
    if p != [] {
      hide Eval, Dot, Powers, Scale;
      var n := |p|;
      EvalIsDot(p[1..], t);
      EvalCons(p, t);
      DotHead(Powers(t, n), p);
      PowersTail(t, n);
      DotComm(Powers(t, n)[1..], p[1..]);
      DotScale(p[1..], t, Powers(t, n - 1));
      DotComm(p[1..], Powers(t, n - 1));
    }
  }

  lemma {:induction false} EvalZero(p: Vector, t: real)
    requires IsZero(p)
    ensures Eval(p, t) == 0.0
  {
    if p != [] { EvalZero(p[1..], t); }
  }

  /** The quotient of p(t) - p(s) by t - s. */
  function Quot(p: Vector, s: real): (q: Vector)
    ensures |q| == if p == [] then 0 else |p| - 1
  {
    if |p| <= 1 then [] else [Eval(p[1..], s)] + Quot(p[1..], s)
  }

  lemma {:induction false} QuotCons(p: Vector, s: real)
    requires |p| > 1
    ensures Quot(p, s) == [Eval(p[1..], s)] + Quot(p[1..], s)
  {
  }

  lemma {:induction false} EvalShort(p: Vector, s: real, t: real)
    requires |p| <= 1
    ensures Eval(p, t) == Eval(p, s) && Eval(Quot(p, s), t) == 0.0
  {
  }

  lemma {:induction false} QuotDivides(p: Vector, s: real, t: real)
    ensures Eval(p, t) - Eval(p, s) == (t - s) * Eval(Quot(p, s), t)
  {
    hide Eval, Quot;
    if |p| <= 1 {
      EvalShort(p, s, t);
    } else {
      var w := p[1..];
      var q := Quot(w, s);
      QuotDivides(w, s, t);
      QuotCons(p, s);
      EvalCons(p, t);
      EvalCons(p, s);
      EvalCons(Quot(p, s), t);
      assert Quot(p, s)[1..] == q;
      Divide(s, t, Eval(w, t), Eval(w, s), Eval(q, t));
    }
  }

  lemma {:induction false} Divide(s: real, t: real, wt: real, ws: real, q: real)
    requires wt - ws == (t - s) * q
    ensures t * wt - s * ws == (t - s) * (ws + t * q)
  {
    assert t * wt - t * ws == t * ((t - s) * q);
  }

  lemma {:induction false} QuotZero(p: Vector, s: real)
    requires p != [] && IsZero(Quot(p, s))
    ensures IsZero(p[1..])
  {
    if |p| > 1 {
      var w, q := p[1..], Quot(p, s);
      assert q[1..] == Quot(w, s);
      forall i | 0 <= i < |Quot(w, s)| ensures Quot(w, s)[i] == 0.0 {
        assert q[i + 1] == 0.0;
      }
      QuotZero(w, s);
      EvalZero(w[1..], s);
      assert q[0] == 0.0;
      assert Eval(w, s) == w[0] + s * Eval(w[1..], s);
      assert w == [w[0]] + w[1..];
    }
  }

  ghost predicate Vanishes(p: Vector, s: set<real>)
  {
    forall t | t in s :: Eval(p, t) == 0.0
  }

  /** A polynomial with as many coefficients as roots is zero. */
  lemma {:induction false} TooManyRoots(p: Vector, s: set<real>)
    requires |s| >= |p| && Vanishes(p, s)
    ensures IsZero(p)
    decreases |p|
  {
    if p != [] {
      hide Eval, Quot;
      var root := Member(s);
      var q, rest := Quot(p, root), s - {root};
      forall t | t in rest ensures Eval(q, t) == 0.0 {
        QuotDivides(p, root, t);
        FactorZero(t - root, Eval(q, t));
      }
      TooManyRoots(q, rest);
      QuotZero(p, root);
      EvalZero(p[1..], root);
      EvalCons(p, root);
      assert p == [p[0]] + p[1..];
    }
  }

  lemma {:induction false} Member<T>(s: set<T>) returns (t: T)
    requires |s| > 0
    ensures t in s
  {
    assert s != {};
    t :| t in s;
  }

  // ---------- a polynomial with given roots ----------

  /** p(t) * (t - s). */
  function TimesRoot(p: Vector, s: real): (r: Vector)
    ensures |r| == |p| + 1
  {
    Plus([0.0] + p, Scale(-s, p + [0.0]))
  }

  lemma {:induction false} EvalPlus(p: Vector, q: Vector, t: real)
    requires |p| == |q|
    ensures Eval(Plus(p, q), t) == Eval(p, t) + Eval(q, t)
  {
    hide Eval, Plus;
    EvalNil(t);
    if p != [] {
      EvalPlus(p[1..], q[1..], t);
      PlusTail(p, q);
      EvalCons(p, t);
      EvalCons(q, t);
      EvalCons(Plus(p, q), t);
      Distribute(t, Eval(p[1..], t), Eval(q[1..], t), Eval(Plus(p, q)[1..], t));
    }
  }

  lemma {:induction false} Distribute(t: real, u: real, v: real, w: real)
    requires w == u + v
    ensures t * w == t * u + t * v
  {
  }

  lemma {:induction false} PullOut(s: real, t: real, u: real, v: real)
    ensures s * u + t * (s * v) == s * (u + t * v)
  {
  }

  lemma {:induction false} EvalScale(s: real, p: Vector, t: real)
    ensures Eval(Scale(s, p), t) == s * Eval(p, t)
  {
    hide Eval, Scale;
    EvalNil(t);
    if p == [] {
      assert Scale(s, p) == [];
    } else {
      EvalScale(s, p[1..], t);
      ScaleTail(s, p);
      EvalCons(p, t);
      EvalCons(Scale(s, p), t);
      PullOut(s, t, p[0], Eval(p[1..], t));
    }
  }

  lemma {:induction false} EvalPadded(p: Vector, t: real)
    ensures Eval(p + [0.0], t) == Eval(p, t)
  {
    if p == [] {
      assert (p + [0.0])[1..] == [];
    } else {
      EvalPadded(p[1..], t);
      assert (p + [0.0])[1..] == p[1..] + [0.0];
    }
  }

  lemma {:induction false} EvalTimesRoot(p: Vector, s: real, t: real)
    ensures Eval(TimesRoot(p, s), t) == (t - s) * Eval(p, t)
  {
    EvalPlus([0.0] + p, Scale(-s, p + [0.0]), t);
    EvalScale(-s, p + [0.0], t);
    EvalPadded(p, t);
    assert ([0.0] + p)[1..] == p;
  }

  /** A nonzero polynomial with n coefficients that vanishes on fewer than n given points. */
  lemma {:induction false} VanishingPolynomial(s: set<real>, n: nat) returns (p: Vector)
    requires |s| < n
    ensures |p| == n && p[n - 1] == 1.0 && Vanishes(p, s)
    decreases |s|
  {
    if s == {} {
      p := ZeroVector(n - 1) + [1.0];
    } else {
      var root := Member(s);
      var q := VanishingPolynomial(s - {root}, n - 1);
      p := TimesRoot(q, root);
      assert p[n - 1] == q[n - 2] + -root * 0.0;
      forall t | t in s ensures Eval(p, t) == 0.0 {
        EvalTimesRoot(q, root, t);
      }
    }
  }
}
