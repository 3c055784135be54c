/** When elimination without exchange of rows gets through, and that its solution is the only one. */
module Solvability {
  import opened Vectors
  import opened LinearSolve

  /** v is sent to 0 by the leading square part of x of its own size. */
  ghost predicate InLeadingKernel(x: Matrix, v: Vector)
    requires Square(x, |x|)
  {
    |v| <= |x| && forall r | 0 <= r < |v| :: Dot(x[r][..|v|], v) == 0.0
  }

  /** The leading square part of size k is regular. */
  ghost predicate LeadRegular(x: Matrix, k: nat)
    requires Square(x, |x|)
  {
    forall v: Vector | |v| == k && InLeadingKernel(x, v) :: IsZero(v)
  }

  lemma {:induction false} KernelOfOne(x: Matrix, v: Vector)
    requires |x| >= 1 && Square(x, |x|) && |v| == 1
    ensures InLeadingKernel(x, v) <==> x[0][0] * v[0] == 0.0
  {
    hide Dot;
    assert x[0][..1] == [x[0][0]] && v == [v[0]];
    DotOne(x[0][0], v[0]);
  }

  /** The leading part of size 1 is the pivot. */
  lemma {:induction false} PivotNonzero(x: Matrix)
    requires |x| >= 1 && Square(x, |x|)
    ensures LeadRegular(x, 1) <==> x[0][0] != 0.0
  {
    hide Dot, InLeadingKernel;
    if x[0][0] == 0.0 {
      var v: Vector := [1.0];
      KernelOfOne(x, v);
      assert v[0] != 0.0;
    } else {
      forall v: Vector | |v| == 1 && InLeadingKernel(x, v) ensures IsZero(v) {
        KernelOfOne(x, v);
        FactorZero(x[0][0], v[0]);
      }
    }
  }

  lemma {:induction false} DotOne(a: real, b: real)
    ensures Dot([a], [b]) == a * b
  {
    DotHead([a], [b]);
    assert [a][1..] == [] && [b][1..] == [];
  }

  lemma {:induction false} Extend(p: real, q: real, v0: real, d0: real, dr: real)
    requires p != 0.0 && p * dr == q * d0 && p * v0 == -d0
    ensures q * v0 + dr == 0.0
  {
    assert p * (q * v0 + dr) == q * (p * v0) + p * dr;
    assert p * (q * v0 + dr) == 0.0;
  }

  lemma {:induction false} ReducedPrefix(x: Matrix, r: nat, k: nat)
    requires Square(x, |x|) && 1 <= k <= |x| && 1 <= r < |x|
    ensures Reduced(x)[r - 1][..k - 1] == ReducedRow(x[0][..k], x[r][..k])
  {
    var row := ReducedRow(x[0], x[r]);
    forall c | 0 <= c < k - 1 ensures row[c] == ReducedRow(x[0][..k], x[r][..k])[c] {
      assert x[r][..k][c + 1] == x[r][c + 1] && x[0][..k][c + 1] == x[0][c + 1];
    }
  }

  /** Row r of the extended vector. */
  lemma {:induction false} ExtendedRow(x: Matrix, dv: Vector, v0: real, r: nat)
    requires Square(x, |x|) && r <= |dv| < |x| && x[0][0] != 0.0
    requires x[0][0] * v0 == -Dot(x[0][1..|dv| + 1], dv)
    requires InLeadingKernel(Reduced(x), dv)
    ensures x[r][0] * v0 + Dot(x[r][1..|dv| + 1], dv) == 0.0
  {
    hide Reduced, ReducedRow, Dot;
    var k := |dv| + 1;
    if r > 0 {
      assert Dot(Reduced(x)[r - 1][..|dv|], dv) == 0.0;
      ReducedPrefix(x, r, k);
      ReducedRowDot(x[0][..k], x[r][..k], dv);
      assert x[0][..k][1..] == x[0][1..k] && x[r][..k][1..] == x[r][1..k];
      Extend(x[0][0], x[r][0], v0, Dot(x[0][1..k], dv), Dot(x[r][1..k], dv));
    }
  }

  lemma {:induction false} ExtendedKernel(x: Matrix, dv: Vector)
    requires |x| >= 2 && Square(x, |x|) && x[0][0] != 0.0
    requires InLeadingKernel(Reduced(x), dv)
    ensures InLeadingKernel(x, [-Dot(x[0][1..|dv| + 1], dv) / x[0][0]] + dv)
  {
    hide Reduced, Dot;
    var k := |dv| + 1;
    var d0 := Dot(x[0][1..k], dv);
    var v0 := -d0 / x[0][0];
    var v := [v0] + dv;
    Quotient(-d0, x[0][0]);
    forall r | 0 <= r < k ensures Dot(x[r][..k], v) == 0.0 {
      ExtendedRow(x, dv, v0, r);
      DotHead(x[r][..k], v);
      assert x[r][..k][1..] == x[r][1..k] && v[1..] == dv;
    }
  }

  /** The other way: row r of the reduced matrix sends the rest of v to 0. */
  lemma {:induction false} ReducedLeadRow(x: Matrix, v: Vector, r: nat)
    requires |x| >= 2 && Square(x, |x|) && 1 <= |v| <= |x| && r < |v| - 1
    requires InLeadingKernel(x, v)
    ensures Dot(Reduced(x)[r][..|v| - 1], v[1..]) == 0.0
  {
    hide Dot, ReducedRow;
    var k := |v|;
    var top, row := x[0][..k], x[r + 1][..k];
    ReducedPrefix(x, r + 1, k);
    ReducedRowDot(top, row, v[1..]);
    DotHead(top, v);
    DotHead(row, v);
    CrossCancel(top[0], row[0], v[0], Dot(top[1..], v[1..]), Dot(row[1..], v[1..]));
  }

  lemma {:induction false} FirstUnknownZero(x: Matrix, v: Vector)
    requires Square(x, |x|) && 1 <= |v| <= |x| && x[0][0] != 0.0
    requires InLeadingKernel(x, v) && IsZero(v[1..])
    ensures IsZero(v)
  {
    hide Dot;
    var top := x[0][..|v|];
    assert Dot(top, v) == 0.0;
    DotHead(top, v);
    DotZero(top[1..], v[1..]);
    FactorZero(x[0][0], v[0]);
    assert v == [v[0]] + v[1..];
  }

  /** Elimination by a nonzero pivot keeps a leading part regular, and singular. */
  lemma {:induction false} ReducedLead(x: Matrix, k: nat)
    requires |x| >= 2 && Square(x, |x|) && x[0][0] != 0.0 && k < |x|
    ensures LeadRegular(Reduced(x), k) <==> LeadRegular(x, k + 1)
  {
    hide Dot, Reduced;
    var dx := Reduced(x);
    if LeadRegular(x, k + 1) {
      forall dv: Vector | |dv| == k && InLeadingKernel(dx, dv) ensures IsZero(dv) {
        ExtendedKernel(x, dv);
        var v := [-Dot(x[0][1..|dv| + 1], dv) / x[0][0]] + dv;
        assert IsZero(v);
        assert forall i | 0 <= i < |dv| :: v[i + 1] == dv[i];
      }
    }
    if LeadRegular(dx, k) {
      forall v: Vector | |v| == k + 1 && InLeadingKernel(x, v) ensures IsZero(v) {
        forall r | 0 <= r < k ensures Dot(dx[r][..k], v[1..]) == 0.0 {
          ReducedLeadRow(x, v, r);
        }
        assert InLeadingKernel(dx, v[1..]);
        FirstUnknownZero(x, v);
      }
    }
  }

  /** What the elimination without exchange of rows asks for: the matrix and its leading square parts are
      regular, but for the part that lacks one row and one column only. */
  ghost predicate EnoughRegular(x: Matrix)
    requires Square(x, |x|)
  {
    LeadRegular(x, |x|) && forall k | 1 <= k <= |x| - 2 :: LeadRegular(x, k)
  }

  /** No division by zero takes place exactly for those matrices. */
  lemma {:induction false} ComputableExactly(x: Matrix)
    requires |x| >= 1 && Square(x, |x|)
    ensures Computable(x) <==> EnoughRegular(x)
    decreases |x|
  {
    hide Reduced, LeadRegular;
    var n := |x|;
    PivotNonzero(x);
    if n == 1 {
      assert FirstColumnNonzero(x) <==> x[0][0] != 0.0;
    } else if x[0][0] != 0.0 {
      ComputableExactly(Reduced(x));
      forall k | 0 <= k < n ensures LeadRegular(Reduced(x), k) <==> LeadRegular(x, k + 1) {
        ReducedLead(x, k);
      }
      PivotFirst(x);
    } else if n == 2 {
      TwoByTwo(x);
    } else {
      ZeroPivotCollapses(x);
    }
  }

  /** With a pivot the conditions on the reduced matrix are those on the matrix. */
  lemma {:induction false} PivotFirst(x: Matrix)
    requires |x| >= 2 && Square(x, |x|) && LeadRegular(x, 1)
    requires forall k | 0 <= k < |x| :: LeadRegular(Reduced(x), k) <==> LeadRegular(x, k + 1)
    ensures EnoughRegular(Reduced(x)) <==> EnoughRegular(x)
  {
    hide Reduced, LeadRegular;
    if EnoughRegular(Reduced(x)) {
      forall k | 1 <= k <= |x| - 2 ensures LeadRegular(x, k) {
        assert k > 1 ==> LeadRegular(Reduced(x), k - 1);
      }
    }
    if EnoughRegular(x) {
      forall k | 1 <= k <= |x| - 3 ensures LeadRegular(Reduced(x), k) {
        assert LeadRegular(x, k + 1);
      }
    }
  }

  lemma {:induction false} KernelOfTwo(x: Matrix, v: Vector)
    requires Square(x, 2) && |v| == 2
    ensures InLeadingKernel(x, v)
       <==> x[0][0] * v[0] + x[0][1] * v[1] == 0.0 && x[1][0] * v[0] + x[1][1] * v[1] == 0.0
  {
    hide Dot;
    DotTwo(x[0], v);
    DotTwo(x[1], v);
    assert x[0][..2] == x[0] && x[1][..2] == x[1];
  }

  /** Two unknowns and no pivot: elimination gets through when neither other entry of the first row and
      the first column is zero. */
  lemma {:induction false} ComputableTwo(x: Matrix)
    requires Square(x, 2) && x[0][0] == 0.0
    ensures Computable(x) <==> x[0][1] != 0.0 && x[1][0] != 0.0
  {
    var d := Reduced(x);
    assert d[0][0] == x[1][1] * x[0][0] - x[0][1] * x[1][0];
    assert FirstColumnNonzero(d) <==> d[0][0] != 0.0;
    assert FirstColumnNonzero(x) <==> x[1][0] != 0.0;
    NonzeroProduct(x[0][1], x[1][0]);
  }

  /** Two unknowns and no pivot: regular is enough. */
  lemma {:induction false} TwoByTwo(x: Matrix)
    requires Square(x, 2) && x[0][0] == 0.0
    ensures Computable(x) <==> LeadRegular(x, 2)
  {
    hide Dot, Reduced, Computable, InLeadingKernel;
    ComputableTwo(x);
    if LeadRegular(x, 2) {
      var u: Vector, w: Vector := [1.0, 0.0], [x[1][1], -x[1][0]];
      KernelOfTwo(x, u);
      KernelOfTwo(x, w);
      assert u[0] != 0.0;
      assert w[1] == -x[1][0];
    }
    if Computable(x) {
      forall v: Vector | |v| == 2 && InLeadingKernel(x, v) ensures IsZero(v) {
        KernelOfTwo(x, v);
        FactorZero(x[0][1], v[1]);
        FactorZero(x[1][0], v[0]);
      }
    }
  }

  lemma {:induction false} DotTwo(a: Vector, b: Vector)
    requires |a| == |b| == 2
    ensures Dot(a, b) == a[0] * b[0] + a[1] * b[1]
  {
    DotHead(a, b);
    assert a[1..] == [a[1]] && b[1..] == [b[1]];
    DotOne(a[1], b[1]);
  }

  /** Every leading square part of x is regular. */
  ghost predicate LeadingRegular(x: Matrix)
    requires Square(x, |x|)
  {
    forall v: Vector | InLeadingKernel(x, v) :: IsZero(v)
  }

  /** With every leading part regular no division by zero takes place. */
  lemma {:induction false} RegularIsComputable(x: Matrix)
    requires |x| >= 1 && Square(x, |x|) && LeadingRegular(x)
    ensures Computable(x)
  {
    ComputableExactly(x);
  }

  lemma {:induction false} ReducedKernel(x: Matrix, v: Vector, r: nat)
    requires |x| == |v| >= 2 && Square(x, |x|) && r < |x| - 1
    requires Dot(x[0], v) == 0.0 && Dot(x[r + 1], v) == 0.0
    ensures Dot(Reduced(x)[r], v[1..]) == 0.0
  {
    hide Dot, ReducedRow;
    var dv := v[1..];
    DotHead(x[0], v);
    DotHead(x[r + 1], v);
    ReducedRowDot(x[0], x[r + 1], dv);
    CrossCancel(x[0][0], x[r + 1][0], v[0], Dot(x[0][1..], dv), Dot(x[r + 1][1..], dv));
  }

  /** When elimination gets through, only the zero vector is sent to zero. */
  lemma {:induction false} ComputableKernel(x: Matrix, v: Vector)
    requires |x| == |v| >= 1 && Square(x, |x|) && Computable(x)
    requires forall r | 0 <= r < |x| :: Dot(x[r], v) == 0.0
    ensures IsZero(v)
    decreases |x|
  {
    hide Dot, Reduced;
    var dv := v[1..];
    if |x| > 1 {
      forall r | 0 <= r < |x| - 1 ensures Dot(Reduced(x)[r], dv) == 0.0 {
        ReducedKernel(x, v, r);
      }
      ComputableKernel(Reduced(x), dv);
    }
    var r :| 0 <= r < |x| && x[r][0] != 0.0;
    DotHead(x[r], v);
    DotZero(x[r][1..], dv);
    FactorZero(x[r][0], v[0]);
    assert v == [v[0]] + dv;
  }

  lemma {:induction false} CrossCancel(p: real, q: real, v0: real, d0: real, dr: real)
    requires p * v0 + d0 == 0.0 && q * v0 + dr == 0.0
    ensures p * dr - q * d0 == 0.0
  {
    assert p * dr == -(p * (q * v0)) && q * d0 == -(q * (p * v0));
  }

  /** The solution is the only one. */
  lemma {:induction false} SolutionUnique(x: Matrix, y: Vector, a: Vector, b: Vector)
    requires |y| >= 1 && Square(x, |y|) && Computable(x)
    requires Solves(x, a, y) && Solves(x, b, y)
    ensures a == b
  {
    hide Dot, Computable;
    var v := Plus(a, Scale(-1.0, b));
    forall r | 0 <= r < |x| ensures Dot(x[r], v) == 0.0 {
      DotPlus(x[r], a, Scale(-1.0, b));
      DotScale(x[r], -1.0, b);
    }
    ComputableKernel(x, v);
    forall i | 0 <= i < |a| ensures a[i] == b[i] {
      assert v[i] == a[i] + -1.0 * b[i];
    }
  }

  /** A regular system that multisolve cannot solve: it never exchanges the first row for one with a pivot. */
  lemma {:induction false} RegularButNotComputable()
    ensures var x := [[0.0, 1.0, 0.0], [1.0, 0.0, 0.0], [0.0, 0.0, 1.0]];
            && Square(x, 3) && !Computable(x)
            && (forall v: Vector | |v| == 3 && (forall r | 0 <= r < 3 :: Dot(x[r], v) == 0.0) :: IsZero(v))
  {
    var x: Matrix := [[0.0, 1.0, 0.0], [1.0, 0.0, 0.0], [0.0, 0.0, 1.0]];
    ZeroPivotCollapses(x);
    forall v: Vector | |v| == 3 && (forall r | 0 <= r < 3 :: Dot(x[r], v) == 0.0) ensures IsZero(v) {
      forall r | 0 <= r < 3 ensures Dot(x[r], v) == x[r][0] * v[0] + x[r][1] * v[1] + x[r][2] * v[2] {
        DotThree(x[r], v);
      }
      assert Dot(x[0], v) == 0.0 && Dot(x[1], v) == 0.0 && Dot(x[2], v) == 0.0;
    }
  }

  lemma {:induction false} DotThree(a: Vector, b: Vector)
    requires |a| == |b| == 3
    ensures Dot(a, b) == a[0] * b[0] + a[1] * b[1] + a[2] * b[2]
  {
    DotHead(a, b);
    DotHead(a[1..], b[1..]);
    DotHead(a[2..], b[2..]);
    assert a[1..][1..] == a[2..] && b[1..][1..] == b[2..];
  }
}
