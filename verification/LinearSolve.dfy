/** multisolve of mathlib.cpp: recursive elimination for n equations in n unknowns, over exact reals. */
module LinearSolve {
  import opened Vectors

  type Matrix = seq<Vector>

  ghost predicate Square(x: Matrix, n: nat)
  {
    |x| == n && forall r | 0 <= r < n :: |x[r]| == n
  }

  /** Row `row` with the first unknown eliminated by means of row `top`. */
  function ReducedRow(top: Vector, row: Vector): (r: Vector)
    requires |top| == |row| >= 1
    ensures |r| == |row| - 1
    ensures forall c | 0 <= c < |r| :: r[c] == row[c + 1] * top[0] - top[c + 1] * row[0]
  {
    seq(|row| - 1, c requires 0 <= c < |row| - 1 => row[c + 1] * top[0] - top[c + 1] * row[0])
  }

  function Reduced(x: Matrix): (dx: Matrix)
    requires |x| >= 1 && Square(x, |x|)
    ensures Square(dx, |x| - 1)
    ensures forall r | 0 <= r < |dx| :: dx[r] == ReducedRow(x[0], x[r + 1])
  {
    seq(|x| - 1, r requires 0 <= r < |x| - 1 => ReducedRow(x[0], x[r + 1]))
  }

  function ReducedRhs(x: Matrix, y: Vector): (dy: Vector)
    requires |x| == |y| >= 1 && Square(x, |x|)
    ensures |dy| == |y| - 1
    ensures forall r | 0 <= r < |dy| :: dy[r] == y[r + 1] * x[0][0] - y[0] * x[r + 1][0]
  {
    seq(|y| - 1, r requires 0 <= r < |y| - 1 => y[r + 1] * x[0][0] - y[0] * x[r + 1][0])
  }

  ghost predicate Solves(x: Matrix, a: Vector, y: Vector)
    requires |y| >= 1 && Square(x, |y|)
  {
    |a| == |y| && forall r | 0 <= r < |y| :: Dot(x[r], a) == y[r]
  }

  ghost predicate FirstColumnNonzero(x: Matrix)
    requires |x| >= 1 && Square(x, |x|)
  {
    exists r :: 0 <= r < |x| && x[r][0] != 0.0
  }

  /** No division by zero takes place at any level of the recursion. */
  ghost predicate Computable(x: Matrix)
    requires |x| >= 1 && Square(x, |x|)
    decreases |x|
  {
    FirstColumnNonzero(x) && (|x| > 1 ==> Computable(Reduced(x)))
  }

  // ---------- correctness of one level ----------

  lemma {:induction false} ReducedRowIsSum(top: Vector, row: Vector)
    requires |top| == |row| >= 1
    ensures ReducedRow(top, row) == Plus(Scale(top[0], row[1..]), Scale(-row[0], top[1..]))
  {
    var p, q := Scale(top[0], row[1..]), Scale(-row[0], top[1..]);
    forall c | 0 <= c < |row| - 1 ensures ReducedRow(top, row)[c] == Plus(p, q)[c] {
      assert p[c] == top[0] * row[c + 1] && q[c] == -row[0] * top[c + 1];
    }
  }

  lemma {:induction false} ReducedRowDot(top: Vector, row: Vector, d: Vector)
    requires |top| == |row| == |d| + 1
    ensures Dot(ReducedRow(top, row), d) == top[0] * Dot(row[1..], d) - row[0] * Dot(top[1..], d)
  {
    hide Dot, ReducedRow, Plus, Scale;
    ReducedRowIsSum(top, row);
    var p, q := Scale(top[0], row[1..]), Scale(-row[0], top[1..]);
    DotComm(Plus(p, q), d);
    DotPlus(d, p, q);
    DotScale(d, top[0], row[1..]);
    DotScale(d, -row[0], top[1..]);
    DotComm(d, row[1..]);
    DotComm(d, top[1..]);
  }

  /** A zero pivot with three or more unknowns makes the next level but one all zero. */
  lemma {:induction false} ZeroPivotCollapses(x: Matrix)
    requires |x| >= 3 && Square(x, |x|) && x[0][0] == 0.0
    ensures !Computable(Reduced(x))
  {
    var d := Reduced(x);
    var e := Reduced(d);
    forall r | 0 <= r < |e| ensures e[r][0] == 0.0 {
      var u, v, s, t := x[r + 2][0], x[0][2], x[1][0], x[0][1];
      assert d[r + 1][1] == -(v * u) && d[0][0] == -(t * s) && d[0][1] == -(v * s) && d[r + 1][0] == -(t * u);
      assert (v * u) * (t * s) == (v * s) * (t * u);
      assert e[r][0] == d[r + 1][1] * d[0][0] - d[0][1] * d[r + 1][0];
    }
  }

  /** The row of the largest leading entry closes the system for every row. */
  lemma {:induction false} BackSubstitution(x: Matrix, y: Vector, da: Vector, best: nat, a0: real)
    requires |y| >= 2 && Square(x, |y|) && Computable(x)
    requires Solves(Reduced(x), da, ReducedRhs(x, y))
    requires best < |y| && x[best][0] != 0.0
    requires x[best][0] * a0 == y[best] - Dot(x[best][1..], da)
    ensures Solves(x, [a0] + da, y)
  {
    hide Dot, Computable;
    forall r | 0 <= r < |y| ensures Dot(x[r], [a0] + da) == y[r] {
      if x[0][0] == 0.0 {
        if |y| >= 3 {
          TwoLevels(x);
          ZeroPivotCollapses(x);
        } else {
          CloseTwoByTwo(x, y, da, best, a0, r);
        }
      } else {
        RowEquation(x, y, da, r);
        RowEquation(x, y, da, best);
        DotHead(x[r], [a0] + da);
        assert ([a0] + da)[1..] == da;
        CloseRow(x[0][0], x[r][0], x[best][0], a0, y[r] - Dot(x[r][1..], da), y[best] - Dot(x[best][1..], da),
                 y[0] - Dot(x[0][1..], da));
      }
    }
  }

  lemma {:induction false} TwoLevels(x: Matrix)
    requires |x| >= 2 && Square(x, |x|) && Computable(x)
    ensures Computable(Reduced(x))
  {
  }

  lemma {:induction false} RowEquation(x: Matrix, y: Vector, da: Vector, r: nat)
    requires |y| >= 2 && Square(x, |y|) && r < |y|
    requires Solves(Reduced(x), da, ReducedRhs(x, y))
    ensures x[0][0] * (y[r] - Dot(x[r][1..], da)) == x[r][0] * (y[0] - Dot(x[0][1..], da))
  {
    hide Dot, ReducedRow, Reduced, ReducedRhs;
    if r > 0 {
      ReducedRowDot(x[0], x[r], da);
      assert Dot(Reduced(x)[r - 1], da) == ReducedRhs(x, y)[r - 1];
      Rearrange(x[0][0], x[r][0], y[r], y[0], Dot(x[r][1..], da), Dot(x[0][1..], da));
    }
  }

  lemma {:induction false} Rearrange(p: real, q: real, yr: real, y0: real, dr: real, d0: real)
    requires p * dr - q * d0 == yr * p - y0 * q
    ensures p * (yr - dr) == q * (y0 - d0)
  {
  }

  lemma {:induction false} CloseRow(p: real, q: real, b: real, a0: real, er: real, eb: real, e0: real)
    requires p != 0.0 && b != 0.0
    requires b * a0 == eb && p * eb == b * e0 && p * er == q * e0
    ensures q * a0 == er
  {
    assert b * (p * a0) == p * (b * a0) == b * e0;
    assert p * a0 == e0;
    assert p * (q * a0) == q * (p * a0) == p * er;
  }

  lemma {:induction false} CloseTwoByTwo(x: Matrix, y: Vector, da: Vector, best: nat, a0: real, r: nat)
    requires |y| == 2 && Square(x, 2) && Computable(x) && x[0][0] == 0.0
    requires Solves(Reduced(x), da, ReducedRhs(x, y))
    requires best < 2 && r < 2 && x[best][0] != 0.0
    requires x[best][0] * a0 == y[best] - Dot(x[best][1..], da)
    ensures Dot(x[r], [a0] + da) == y[r]
  {
    DotHead(x[r], [a0] + da);
    assert ([a0] + da)[1..] == da;
    assert best == 1;
    if r == 0 {
      var dx, dy := Reduced(x), ReducedRhs(x, y);
      assert dx[0][0] == -(x[0][1] * x[1][0]) && dy[0] == -(y[0] * x[1][0]);
      assert Dot(dx[0], da) == dx[0][0] * da[0] by { DotHead(dx[0], da); }
      assert Dot(x[0][1..], da) == x[0][1] * da[0] by { DotHead(x[0][1..], da); }
      assert x[1][0] * (x[0][1] * da[0]) == x[1][0] * y[0];
    }
  }

  // ---------- the procedure ----------

  function Abs(r: real): real
  {
    if r < 0.0 then -r else r
  }

  lemma {:induction false} LeadingEntryOnly(x: Matrix, y: Vector, a0: real)
    requires |y| == 1 && Square(x, 1) && x[0][0] * a0 == y[0]
    ensures Solves(x, [a0], y)
  {
    DotHead(x[0], [a0]);
  }

  lemma {:induction false} DotNext(a: Vector, b: Vector, k: nat)
    requires |a| == |b| && k < |a|
    ensures Dot(a[..k + 1], b[..k + 1]) == Dot(a[..k], b[..k]) + a[k] * b[k]
  {
    assert a[..k + 1][..k] == a[..k] && b[..k + 1][..k] == b[..k];
  }

  /** The elimination step of multisolve: every other row less its leading entry. */
  method Eliminate(x: Matrix, y: Vector) returns (dx: Matrix, dy: Vector)
    requires |y| >= 2 && Square(x, |y|)
    ensures dx == Reduced(x) && dy == ReducedRhs(x, y)
  {
    dx, dy := [], [];
    for r := 1 to |y|
      invariant dy == ReducedRhs(x, y)[..r - 1] && dx == Reduced(x)[..r - 1]
    {
      assert ReducedRhs(x, y)[r - 1] == y[r] * x[0][0] - y[0] * x[r][0];
      dy := dy + [y[r] * x[0][0] - y[0] * x[r][0]];
      var row: Vector := [];
      for c := 1 to |y|
        invariant row == ReducedRow(x[0], x[r])[..c - 1]
      {
        assert ReducedRow(x[0], x[r])[c - 1] == x[r][c] * x[0][0] - x[0][c] * x[r][0];
        row := row + [x[r][c] * x[0][0] - x[0][c] * x[r][0]];
      }
      assert row == ReducedRow(x[0], x[r]);
      assert Reduced(x)[r - 1] == row;
      dx := dx + [row];
    }
  }

  /** The row with the largest leading entry. */
  method BestRow(x: Matrix) returns (best: nat, bestx: real)
    requires |x| >= 1 && Square(x, |x|)
    ensures best < |x| && bestx == Abs(x[best][0])
    ensures bestx == 0.0 <==> !FirstColumnNonzero(x)
    ensures forall r | 0 <= r < |x| :: Abs(x[r][0]) <= bestx
  {
    best := 0;
    bestx := 0.0;
    for i := 0 to |x|
      invariant best < |x| && bestx >= 0.0
      invariant forall r | 0 <= r < i :: Abs(x[r][0]) <= bestx
      invariant bestx == Abs(x[best][0]) || (bestx == 0.0 && best == 0)
    {
      if Abs(x[i][0]) > bestx {
        bestx := Abs(x[i][0]);
        best := i;
      }
    }
    assert Abs(x[0][0]) <= bestx;
    if bestx == 0.0 {
      forall r | 0 <= r < |x| ensures x[r][0] == 0.0 {
        assert Abs(x[r][0]) <= bestx;
      }
    } else {
      assert x[best][0] != 0.0;
    }
  }

  /**
   multisolve. `finite` is false when a division by zero takes place, which the source leaves to its
   floating point numbers. Its search for a row counts with a uint16, which bounds the sizes for which it ends.
  */
  method Multisolve(x: Matrix, y: Vector) returns (finite: bool, a: Vector)
    requires 1 <= |y| < 65536 && Square(x, |y|)
    ensures finite <==> Computable(x)
    ensures finite ==> Solves(x, a, y)
    decreases |y|
  {
    hide Dot, Reduced, ReducedRhs, FirstColumnNonzero;
    var order := |y| - 1;
    var da: Vector := [];
    finite := true;
    if order > 0 {
      var dx, dy := Eliminate(x, y);
      finite, da := Multisolve(dx, dy);
    }
    // The row that is solved for the first unknown.
    var best, bestx := BestRow(x);
    if bestx == 0.0 || !finite {
      return false, [];
    }
    var a0 := y[best];
    ghost var rest := x[best][1..];
    NoTerms(rest, da);
    for i := 1 to order + 1
      invariant a0 == y[best] - Dot(rest[..i - 1], da[..i - 1])
    {
      DotNext(rest, da, i - 1);
      a0 := a0 - da[i - 1] * x[best][i];
    }
    assert rest[..order] == rest && da[..order] == da;
    Quotient(a0, x[best][0]);
    a0 := a0 / x[best][0];
    a := [a0] + da;
    if order > 0 {
      BackSubstitution(x, y, da, best, a0);
    } else {
      assert a == [a0];
      LeadingEntryOnly(x, y, a0);
    }
  }

  lemma {:induction false} NoTerms(a: Vector, b: Vector)
    ensures Dot(a[..0], b[..0]) == 0.0 && Dot([], []) == 0.0
  {
  }
}
