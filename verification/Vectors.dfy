/** Sums over sequences of reals. */
module Vectors {

  type Vector = seq<real>

  function Dot(a: Vector, b: Vector): real
    requires |a| == |b|
  {
    if a == [] then 0.0 else Dot(a[..|a| - 1], b[..|b| - 1]) + a[|a| - 1] * b[|b| - 1]
  }

  function Plus(a: Vector, b: Vector): (r: Vector)
    requires |a| == |b|
    ensures |r| == |a| && forall i | 0 <= i < |a| :: r[i] == a[i] + b[i]
  {
    seq(|a|, i requires 0 <= i < |a| => a[i] + b[i])
  }

  function Scale(s: real, a: Vector): (r: Vector)
    ensures |r| == |a| && forall i | 0 <= i < |a| :: r[i] == s * a[i]
  {
    seq(|a|, i requires 0 <= i < |a| => s * a[i])
  }

  function ZeroVector(n: nat): (r: Vector)
    ensures |r| == n && forall i | 0 <= i < n :: r[i] == 0.0
  {
    seq(n, i => 0.0)
  }

  ghost predicate IsZero(a: Vector)
  {
    forall i | 0 <= i < |a| :: a[i] == 0.0
  }

  lemma {:induction false} ScalePlus(s: real, a: Vector, b: Vector)
    requires |a| == |b|
    ensures Scale(s, Plus(a, b)) == Plus(Scale(s, a), Scale(s, b))
  {
    forall i | 0 <= i < |a| ensures Scale(s, Plus(a, b))[i] == Plus(Scale(s, a), Scale(s, b))[i] {
      assert s * (a[i] + b[i]) == s * a[i] + s * b[i];
    }
  }

  lemma {:induction false} ScaleSum(s: real, t: real, a: Vector)
    ensures Scale(s + t, a) == Plus(Scale(s, a), Scale(t, a))
  {
    forall i | 0 <= i < |a| ensures Scale(s + t, a)[i] == Plus(Scale(s, a), Scale(t, a))[i] {
      assert (s + t) * a[i] == s * a[i] + t * a[i];
    }
  }

  lemma {:induction false} ScaleScale(s: real, t: real, st: real, a: Vector)
    requires st == s * t
    ensures Scale(st, a) == Scale(s, Scale(t, a))
  {
    forall i | 0 <= i < |a| ensures Scale(st, a)[i] == Scale(s, Scale(t, a))[i] {
      assert (s * t) * a[i] == s * (t * a[i]);
    }
  }

  lemma {:induction false} ScaleTail(s: real, a: Vector)
    requires a != []
    ensures Scale(s, a)[0] == s * a[0] && Scale(s, a)[1..] == Scale(s, a[1..])
  {
    forall i | 0 <= i < |a| - 1 ensures Scale(s, a)[1..][i] == Scale(s, a[1..])[i] {
      assert a[1..][i] == a[i + 1];
    }
  }

  lemma {:induction false} PlusTail(a: Vector, b: Vector)
    requires |a| == |b| >= 1
    ensures Plus(a, b)[0] == a[0] + b[0] && Plus(a, b)[1..] == Plus(a[1..], b[1..])
  {
  }

  lemma {:induction false} Regroup(a: Vector, b: Vector, c: Vector, d: Vector)
    requires |a| == |b| == |c| == |d|
    ensures Plus(Plus(a, b), Plus(c, d)) == Plus(Plus(a, c), Plus(b, d))
  {
  }

  lemma {:induction false} DotComm(a: Vector, b: Vector)
    requires |a| == |b|
    ensures Dot(a, b) == Dot(b, a)
  {
    if a != [] { DotComm(a[..|a| - 1], b[..|b| - 1]); }
  }

  lemma {:induction false} DotPlus(a: Vector, b: Vector, c: Vector)
    requires |a| == |b| == |c|
    ensures Dot(a, Plus(b, c)) == Dot(a, b) + Dot(a, c)
  {
    if a != [] {
      var n := |a| - 1;
      DotPlus(a[..n], b[..n], c[..n]);
      assert Plus(b, c)[..n] == Plus(b[..n], c[..n]);
      assert a[n] * (b[n] + c[n]) == a[n] * b[n] + a[n] * c[n];
    }
  }

  lemma {:induction false} DotScale(a: Vector, s: real, b: Vector)
    requires |a| == |b|
    ensures Dot(a, Scale(s, b)) == s * Dot(a, b)
  {
    if a != [] {
      var n := |a| - 1;
      DotScale(a[..n], s, b[..n]);
      forall i | 0 <= i < n ensures Scale(s, b)[..n][i] == Scale(s, b[..n])[i] {
        assert b[..n][i] == b[i];
      }
      assert Scale(s, b)[..n] == Scale(s, b[..n]);
      assert a[n] * (s * b[n]) == s * (a[n] * b[n]);
      assert s * (Dot(a[..n], b[..n]) + a[n] * b[n]) == s * Dot(a[..n], b[..n]) + s * (a[n] * b[n]);
    }
  }

  lemma {:induction false} DotZero(a: Vector, b: Vector)
    requires |a| == |b| && IsZero(b)
    ensures Dot(a, b) == 0.0
  {
    if a != [] { DotZero(a[..|a| - 1], b[..|b| - 1]); }
  }

  lemma {:induction false} DotHead(a: Vector, b: Vector)
    requires |a| == |b| >= 1
    ensures Dot(a, b) == a[0] * b[0] + Dot(a[1..], b[1..])
    decreases |a|
  {
    if |a| > 1 {
      var n := |a| - 1;
      DotHead(a[..n], b[..n]);
      assert a[..n][0] == a[0] && b[..n][0] == b[0] && a[1..][n - 1] == a[n] && b[1..][n - 1] == b[n];
      assert a[..n][1..] == a[1..][..n - 1] && b[..n][1..] == b[1..][..n - 1];
    }
  }

  lemma {:induction false} SameProduct(a: real, b: real, c: real, d: real)
    requires a == c && b == d
    ensures a * b == c * d && a * b == d * c
  {
  }

  lemma {:induction false} FactorZero(u: real, v: real)
    requires u != 0.0 && u * v == 0.0
    ensures v == 0.0
  {
  }

  lemma {:induction false} NonzeroProduct(u: real, v: real)
    ensures u * v != 0.0 <==> u != 0.0 && v != 0.0
  {
  }

  lemma {:induction false} Quotient(u: real, v: real)
    requires v != 0.0
    ensures v * (u / v) == u
  {
  }

  function Times(u: real, v: real): real
  {
    u * v
  }

  lemma {:induction false} TimesPositive(u: real, v: real)
    requires u > 0.0 && v > 0.0
    ensures Times(u, v) > 0.0
  {
    assert u * v > 0.0;
  }

  lemma {:induction false} TimesNegated(u: real, v: real)
    ensures Times(-u, -v) == Times(u, v)
  {
  }

  lemma {:induction false} SquareSign(u: real)
    ensures Times(u, u) >= 0.0 && (u != 0.0 ==> Times(u, u) > 0.0)
  {
    if u > 0.0 {
      TimesPositive(u, u);
    } else if u < 0.0 {
      TimesPositive(-u, -u);
      TimesNegated(u, u);
    }
  }

  lemma {:induction false} DotSquare(a: Vector)
    ensures Dot(a, a) >= 0.0
    ensures Dot(a, a) == 0.0 ==> IsZero(a)
  {
    if a != [] {
      var n := |a| - 1;
      DotSquare(a[..n]);
      SquareSign(a[n]);
      assert Dot(a, a) == Dot(a[..n], a[..n]) + Times(a[n], a[n]);
      if Dot(a, a) == 0.0 {
        forall i | 0 <= i < |a| ensures a[i] == 0.0 {
          assert i < n ==> a[i] == a[..n][i];
        }
      }
    }
  }
}
