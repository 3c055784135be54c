/** The sliding-window least squares fit LsFit of mathlib.cpp, over exact reals. */
module SlidingFit {
  import opened Vectors
  import opened LinearSolve
  import opened Solvability
  import opened Polynomials
  import opened LeastSquares

  /** The four components that a scalar, a vector or a quaternion is kept in. */
  type Quad = q: Vector | |q| == 4 witness [0.0, 0.0, 0.0, 0.0]

  datatype Element = Element(x: real, y: Quad)

  /** Coefficients of one axis, or the not-a-number result of a division by zero. */
  datatype Coefficients = Finite(c: Vector) | Undefined

  // ---------- the fit as a minimisation ----------

  function Offsets(w: seq<Element>, base: real): (ts: Vector)
    ensures |ts| == |w| && forall i | 0 <= i < |w| :: ts[i] == w[i].x - base
  {
    seq(|w|, i requires 0 <= i < |w| => w[i].x - base)
  }

  function Axis(w: seq<Element>, axis: nat): (ys: Vector)
    requires axis < 4
    ensures |ys| == |w| && forall i | 0 <= i < |w| :: ys[i] == w[i].y[axis]
  {
    seq(|w|, i requires 0 <= i < |w| => w[i].y[axis])
  }

  /** Sum of squared distances of the points (t, y) from a polynomial. */
  function SumSquares(ts: Vector, ys: Vector, p: Vector): real
    requires |ts| == |ys|
  {
    if ts == [] then 0.0
    else
      var n := |ts| - 1;
      var miss := ys[n] - Eval(p, ts[n]);
      SumSquares(ts[..n], ys[..n], p) + miss * miss
  }

  /** p is a polynomial of the given order that fits the points at least as well as every other. */
  ghost predicate BestFit(ts: Vector, ys: Vector, order: nat, p: Vector)
    requires |ts| == |ys|
  {
    |p| == order + 1 && forall b: Vector | |b| == order + 1 :: SumSquares(ts, ys, p) <= SumSquares(ts, ys, b)
  }

  function Distinct(ts: Vector): set<real>
  {
    if ts == [] then {} else Distinct(ts[..|ts| - 1]) + {ts[|ts| - 1]}
  }

  // ---------- powers as columns ----------

  function Column(ts: Vector, j: nat): (r: Vector)
    ensures |r| == |ts| && forall i | 0 <= i < |ts| :: r[i] == Pow(ts[i], j)
  {
    seq(|ts|, i requires 0 <= i < |ts| => Pow(ts[i], j))
  }

  function PowerColumns(ts: Vector, n: nat): (c: seq<Vector>)
    ensures |c| == n && Columns(c, |ts|) && forall j | 0 <= j < n :: c[j] == Column(ts, j)
  {
    seq(n, j requires 0 <= j < n => Column(ts, j))
  }

  function Moment(ts: Vector, j: nat): real
  {
    if ts == [] then 0.0 else Moment(ts[..|ts| - 1], j) + Pow(ts[|ts| - 1], j)
  }

  lemma {:induction false} MomentIsDot(ts: Vector, j: nat, k: nat)
    ensures Moment(ts, j + k) == Dot(Column(ts, j), Column(ts, k))
  {
    if ts != [] {
      hide Pow;
      var n := |ts| - 1;
      MomentIsDot(ts[..n], j, k);
      assert Column(ts, j)[..n] == Column(ts[..n], j) && Column(ts, k)[..n] == Column(ts[..n], k);
      PowAdd(ts[n], j, k);
    }
  }

  /** Combining the columns evaluates the polynomial at every point. */
  lemma {:induction false} CombineIsEval(ts: Vector, n: nat, v: Vector, i: nat)
    requires |v| <= n && i < |ts|
    ensures Combine(PowerColumns(ts, n), v, |ts|)[i] == Eval(v, ts[i])
  {
    CombineIsDot(ts, n, v, i);
    EvalIsDot(v, ts[i]);
  }

  lemma {:induction false} CombineIsDot(ts: Vector, n: nat, v: Vector, i: nat)
    requires |v| <= n && i < |ts|
    ensures Combine(PowerColumns(ts, n), v, |ts|)[i] == Dot(Powers(ts[i], |v|), v)
  {
    if v != [] {
      hide Pow;
      var k := |v| - 1;
      CombineIsDot(ts, n, v[..k], i);
      assert Powers(ts[i], |v|)[..k] == Powers(ts[i], k);
      assert Combine(PowerColumns(ts, n), v, |ts|)[i] ==
             Combine(PowerColumns(ts, n), v[..k], |ts|)[i] + v[k] * Pow(ts[i], k);
    }
  }

  lemma {:induction false} SumSquaresIsDot(ts: Vector, ys: Vector, p: Vector, r: Vector)
    requires |ts| == |ys| == |r|
    requires forall i | 0 <= i < |ts| :: r[i] == ys[i] - Eval(p, ts[i])
    ensures SumSquares(ts, ys, p) == Dot(r, r)
  {
    hide Eval;
    if ts != [] {
      var n := |ts| - 1;
      SumSquaresIsDot(ts[..n], ys[..n], p, r[..n]);
    }
  }

  lemma {:induction false} ResidualIsMiss(ts: Vector, ys: Vector, p: Vector)
    requires |ts| == |ys|
    ensures var r := Residual(PowerColumns(ts, |p|), ys, p);
            SumSquares(ts, ys, p) == Dot(r, r)
  {
    hide Combine, Eval, Pow, Dot, SumSquares;
    var r := Residual(PowerColumns(ts, |p|), ys, p);
    forall i | 0 <= i < |ts| ensures r[i] == ys[i] - Eval(p, ts[i]) {
      CombineIsEval(ts, |p|, p, i);
    }
    SumSquaresIsDot(ts, ys, p, r);
  }

  /** A solution of the normal equations is a best fit. */
  lemma {:induction false} SolutionFitsBest(ts: Vector, ys: Vector, order: nat, p: Vector)
    requires |ts| == |ys|
    requires var c := PowerColumns(ts, order + 1);
             Solves(Gram(c, |ts|), p, Projections(c, ys))
    ensures BestFit(ts, ys, order, p)
  {
    hide Combine, Eval, Pow, Dot, SumSquares, Gram, Residual;
    var c := PowerColumns(ts, order + 1);
    forall b: Vector | |b| == order + 1 ensures SumSquares(ts, ys, p) <= SumSquares(ts, ys, b) {
      NormalEquationsMinimise(c, ys, p, b);
      ResidualIsMiss(ts, ys, p);
      ResidualIsMiss(ts, ys, b);
    }
  }

  // ---------- when the normal equations can be solved ----------

  lemma {:induction false} DistinctMembers(ts: Vector)
    ensures forall t :: t in Distinct(ts) <==> exists i :: 0 <= i < |ts| && ts[i] == t
  {
    if ts != [] {
      var n := |ts| - 1;
      DistinctMembers(ts[..n]);
      forall t ensures t in Distinct(ts) <==> exists i :: 0 <= i < |ts| && ts[i] == t {
        if t in Distinct(ts[..n]) {
          var i :| 0 <= i < n && ts[..n][i] == t;
          assert ts[i] == t;
        }
        if i :| 0 <= i < |ts| && ts[i] == t {
          assert i < n ==> ts[..n][i] == t;
        }
      }
    }
  }

  lemma {:induction false} EnoughPoints(ts: Vector, order: nat)
    requires |Distinct(ts)| > order
    ensures Computable(Gram(PowerColumns(ts, order + 1), |ts|))
  {
    hide Eval, Dot, Gram, Combine, Distinct, Computable;
    var c := PowerColumns(ts, order + 1);
    var g := Gram(c, |ts|);
    forall v: Vector | InLeadingKernel(g, v) ensures IsZero(v) {
      GramKernel(c, |ts|, v);
      DistinctMembers(ts);
      forall t | t in Distinct(ts) ensures Eval(v, t) == 0.0 {
        var i :| 0 <= i < |ts| && ts[i] == t;
        CombineIsEval(ts, order + 1, v, i);
      }
      TooManyRoots(v, Distinct(ts));
    }
    RegularIsComputable(g);
  }

  lemma {:induction false} TooFewPoints(ts: Vector, order: nat)
    requires |Distinct(ts)| <= order
    ensures !Computable(Gram(PowerColumns(ts, order + 1), |ts|))
  {
    hide Eval, Dot, Gram, Combine, Distinct, Computable;
    var c := PowerColumns(ts, order + 1);
    var g := Gram(c, |ts|);
    var v := VanishingPolynomial(Distinct(ts), order + 1);
    DistinctMembers(ts);
    var w := Combine(c, v, |ts|);
    forall i | 0 <= i < |ts| ensures w[i] == 0.0 {
      CombineIsEval(ts, order + 1, v, i);
      assert ts[i] in Distinct(ts);
    }
    forall r | 0 <= r < |g| ensures Dot(g[r], v) == 0.0 {
      GramRow(c, |ts|, r);
      DotCombine(c[r], c, v, |ts|);
      assert Projections(c, c[r])[..|v|] == Projections(c, c[r]);
      DotZero(c[r], w);
    }
    if Computable(g) {
      ComputableKernel(g, v);
    }
  }

  /** The normal equations of a fit are solved without a division by zero exactly when there are more points
      than the order. */
  lemma {:induction false} FitIsDefined(ts: Vector, order: nat)
    ensures Computable(Gram(PowerColumns(ts, order + 1), |ts|)) <==> |Distinct(ts)| > order
  {
    hide Gram, PowerColumns, Distinct, Computable;
    if |Distinct(ts)| > order {
      EnoughPoints(ts, order);
    } else {
      TooFewPoints(ts, order);
    }
  }

  // ---------- when the best fit is the only one ----------

  function Misses(ts: Vector, ys: Vector, p: Vector): (r: Vector)
    requires |ts| == |ys|
    ensures |r| == |ts| && forall i | 0 <= i < |ts| :: r[i] == ys[i] - Eval(p, ts[i])
  {
    seq(|ts|, i requires 0 <= i < |ts| => ys[i] - Eval(p, ts[i]))
  }

  lemma {:induction false} SquaresAround(m: Vector, u: Vector)
    requires |m| == |u|
    ensures var a, b := Plus(m, u), Plus(m, Scale(-1.0, u));
            Dot(a, a) + Dot(b, b) == 2.0 * Dot(m, m) + 2.0 * Dot(u, u)
  {
    hide Dot, Plus, Scale;
    SquareOfSum(m, u);
    SquareOfSum(m, Scale(-1.0, u));
    DotScale(m, -1.0, u);
    DotScale(Scale(-1.0, u), -1.0, u);
    DotComm(Scale(-1.0, u), u);
    DotScale(u, -1.0, u);
  }

  /** Two best fits go through the points alike: otherwise their mean would fit better. */
  lemma {:induction false} BestFitsAgree(ts: Vector, ys: Vector, order: nat, p: Vector, b: Vector, i: nat)
    requires |ts| == |ys| && BestFit(ts, ys, order, p) && BestFit(ts, ys, order, b) && i < |ts|
    ensures Eval(p, ts[i]) == Eval(b, ts[i])
  {
    hide Dot, Plus, Scale, Eval, SumSquares;
    var mean := Scale(0.5, Plus(p, b));
    var r, s, m := Misses(ts, ys, p), Misses(ts, ys, b), Misses(ts, ys, mean);
    var u := Plus(r, Scale(-1.0, m));
    forall k | 0 <= k < |ts| ensures r[k] == m[k] + u[k] && s[k] == m[k] - u[k] {
      EvalScale(0.5, Plus(p, b), ts[k]);
      EvalPlus(p, b, ts[k]);
    }
    assert r == Plus(m, u) && s == Plus(m, Scale(-1.0, u));
    SquaresAround(m, u);
    SumSquaresIsDot(ts, ys, p, r);
    SumSquaresIsDot(ts, ys, b, s);
    SumSquaresIsDot(ts, ys, mean, m);
    DotSquare(u);
  }

  /** With more different points than the order the best fit is the only one, and with no more it never is. */
  lemma {:induction false} BestFitIsUnique(ts: Vector, ys: Vector, order: nat, p: Vector)
    requires |ts| == |ys| && BestFit(ts, ys, order, p)
    ensures (forall b | BestFit(ts, ys, order, b) :: b == p) <==> |Distinct(ts)| > order
  {
    hide Dot, Plus, Scale, Eval, SumSquares, Distinct;
    DistinctMembers(ts);
    if |Distinct(ts)| > order {
      forall b | BestFit(ts, ys, order, b) ensures b == p {
        var d := Plus(b, Scale(-1.0, p));
        forall t | t in Distinct(ts) ensures Eval(d, t) == 0.0 {
          var i :| 0 <= i < |ts| && ts[i] == t;
          BestFitsAgree(ts, ys, order, p, b, i);
          EvalPlus(b, Scale(-1.0, p), t);
          EvalScale(-1.0, p, t);
        }
        TooManyRoots(d, Distinct(ts));
        forall k | 0 <= k <= order ensures b[k] == p[k] {
          assert d[k] == 0.0;
        }
      }
    } else {
      var v := VanishingPolynomial(Distinct(ts), order + 1);
      var b := Plus(p, v);
      forall i | 0 <= i < |ts| ensures Misses(ts, ys, p)[i] == ys[i] - Eval(b, ts[i]) {
        EvalPlus(p, v, ts[i]);
        assert ts[i] in Distinct(ts);
      }
      SumSquaresIsDot(ts, ys, p, Misses(ts, ys, p));
      SumSquaresIsDot(ts, ys, b, Misses(ts, ys, p));
      assert BestFit(ts, ys, order, b) && b[order] == p[order] + 1.0;
    }
  }

  // ---------- the window ----------

  function Xs(w: seq<Element>): (xs: Vector)
    ensures |xs| == |w| && forall i | 0 <= i < |w| :: xs[i] == w[i].x
  {
    seq(|w|, i requires 0 <= i < |w| => w[i].x)
  }

  /** The same x as the newest sample is not taken. */
  predicate Repeats(w: seq<Element>, e: Element)
  {
    w != [] && e.x == w[|w| - 1].x
  }

  /** The new quaternion is nearer to the mirror of the newest one than to that one itself. */
  predicate NearerMirror(q: Quad, last: Quad)
  {
    var apart, together := Plus(q, Scale(-1.0, last)), Plus(Scale(-1.0, q), Scale(-1.0, last));
    Dot(apart, apart) > Dot(together, together)
  }

  function Mirrored(w: seq<Element>): (r: seq<Element>)
    ensures |r| == |w| && forall i | 0 <= i < |w| :: r[i] == Element(w[i].x, Scale(-1.0, w[i].y))
  {
    seq(|w|, i requires 0 <= i < |w| => Element(w[i].x, Scale(-1.0, w[i].y)))
  }

  /** The window after a sample: a repeated x changes nothing; a quaternion may mirror all earlier ones. */
  function Next(w: seq<Element>, e: Element, depth: nat, limit: nat): (r: seq<Element>)
  {
    if Repeats(w, e) then w
    else
      var kept := if depth == 4 && w != [] && NearerMirror(e.y, w[|w| - 1].y) then Mirrored(w) else w;
      var all := kept + [e];
      if |all| > limit then all[1..] else all
  }

  /** A sample that is taken is the newest element as supplied, and the oldest one goes if there are too many. */
  lemma {:induction false} NextTakes(w: seq<Element>, e: Element, depth: nat, limit: nat)
    requires |w| <= limit && !Repeats(w, e)
    ensures var r := Next(w, e, depth, limit);
            |r| == (if |w| < limit then |w| + 1 else limit) && (limit >= 1 ==> r[|r| - 1] == e)
  {
    hide NearerMirror, Mirrored;
  }

  /** In terms of x alone: a sample is left out exactly if its x is that of the newest element. */
  lemma {:induction false} NextInX(w: seq<Element>, e: Element, depth: nat, limit: nat)
    requires |w| <= limit
    ensures Xs(Next(w, e, depth, limit)) ==
            if w != [] && e.x == w[|w| - 1].x then Xs(w)
            else if |w| < limit then Xs(w) + [e.x] else (Xs(w) + [e.x])[1..]
  {
    hide NearerMirror, Scale;
  }

  /** What the fit says about one axis of the window. */
  ghost predicate AxisFitted(w: seq<Element>, order: nat, axis: nat, p: Coefficients)
    requires w != [] && axis < 4
  {
    var ts := Offsets(w, w[0].x);
    && (p.Finite? <==> |Distinct(Xs(w))| > order)
    && (p.Finite? ==> BestFit(ts, Axis(w, axis), order, p.c))
  }

  lemma {:induction false} ShiftedMember(w: seq<Element>, base: real, t: real)
    ensures t in Distinct(Xs(w)) <==> t - base in Distinct(Offsets(w, base))
  {
    hide Distinct;
    var xs, ts := Xs(w), Offsets(w, base);
    DistinctMembers(xs);
    DistinctMembers(ts);
    if t in Distinct(xs) {
      var i :| 0 <= i < |w| && xs[i] == t;
      assert ts[i] == t - base;
    }
    if t - base in Distinct(ts) {
      var i :| 0 <= i < |w| && ts[i] == t - base;
      assert xs[i] == t;
    }
  }

  lemma {:induction false} DistinctSnoc(ts: Vector)
    requires ts != []
    ensures var before := Distinct(ts[..|ts| - 1]);
            |Distinct(ts)| == |before| + if ts[|ts| - 1] in before then 0 else 1
  {
    var before, t := Distinct(ts[..|ts| - 1]), ts[|ts| - 1];
    if t in before {
      assert before + {t} == before;
    }
  }

  lemma {:induction false} PointsFront(w: seq<Element>, base: real)
    requires w != []
    ensures Offsets(w, base)[..|w| - 1] == Offsets(w[..|w| - 1], base) && Xs(w)[..|w| - 1] == Xs(w[..|w| - 1])
  {
  }

  lemma {:induction false} ShiftedPoints(w: seq<Element>, base: real)
    ensures |Distinct(Offsets(w, base))| == |Distinct(Xs(w))|
  {
    if w != [] {
      hide Distinct, Offsets, Xs;
      var front := w[..|w| - 1];
      ShiftedPoints(front, base);
      PointsFront(w, base);
      DistinctSnoc(Offsets(w, base));
      DistinctSnoc(Xs(w));
      ShiftedMember(front, base, w[|w| - 1].x);
    }
  }

  // ---------- class LsFit ----------

  class LsFit {
    var elementCnt: nat
    var order: nat
    var depth: nat
    var basex: real
    var window: seq<Element>
    var parms: seq<Coefficients>

    ghost predicate Valid()
      reads this
    {
      1 <= order < 65536 && elementCnt < 65536 && |window| <= elementCnt && depth <= 4
    }

    constructor (cnt: nat, ord: nat)
      requires cnt < 65536 && ord < 65536
      ensures Valid() && window == [] && parms == []
      ensures order == (if ord != 0 then ord else 1)
      ensures elementCnt == if cnt != 0 then cnt else (order + 1) % 65536
    {
      var o := if ord != 0 then ord else 1;
      order := o;
      elementCnt := if cnt != 0 then cnt else (o + 1) % 65536;
      window, depth := [], 0;
      basex, parms := 0.0, [];
    }

    /** update: the sample joins the window; with more than `order` samples the fit is made anew. The powers are
        counted with a uint16, which bounds the order for which a fit ends. */
    method Update(e: Element, dep: nat)
      requires Valid() && dep <= 4
      requires order < 32768 || Repeats(window, e) || |Next(window, e, dep, elementCnt)| <= order
      modifies this
      ensures Valid() && order == old(order) && elementCnt == old(elementCnt)
      ensures window == Next(old(window), e, dep, elementCnt)
      ensures old(window) != [] && e.x == old(window)[|old(window)| - 1].x ==> window == old(window)
      ensures (old(window) == [] || e.x != old(window)[|old(window)| - 1].x) && elementCnt >= 1 ==>
                && |window| == (if |old(window)| < elementCnt then |old(window)| + 1 else elementCnt)
                && window[|window| - 1] == e
      ensures Repeats(old(window), e) || |window| <= order ==> parms == old(parms) && basex == old(basex)
      ensures !Repeats(old(window), e) && |window| > order ==>
                && basex == window[0].x && |parms| == dep
                && forall axis | 0 <= axis < dep :: AxisFitted(window, order, axis, parms[axis])
    {
      hide AxisFitted, NearerMirror, Mirrored, Scale, Xs, Axis, Offsets, Distinct, Dot, Plus;
      if !Repeats(window, e) {
        NextTakes(window, e, dep, elementCnt);
      }
      if |window| > 0 && e.x == window[|window| - 1].x {
        return;
      }
      depth := dep;
      if depth == 4 && |window| > 0 {
        if NearerMirror(e.y, window[|window| - 1].y) {
          MirrorAll();
        }
      }
      window := window + [e];
      if |window| > elementCnt {
        window := window[1..];
      }
      if |window| > order {
        Fit();
      }
    }

    /** The switch of all earlier quaternions to their mirror values. */
    method MirrorAll()
      modifies this`window
      ensures window == Mirrored(old(window))
    {
      ghost var before := window;
      for i := 0 to |window|
        invariant |window| == |before|
        invariant forall k | 0 <= k < i :: window[k] == Mirrored(before)[k]
        invariant forall k | i <= k < |before| :: window[k] == before[k]
      {
        window := window[i := Element(window[i].x, Scale(-1.0, window[i].y))];
      }
    }

    /** fit: sums of powers, sums of products, and one linear solve per axis. */
    method Fit()
      requires 1 <= order < 32768 && |window| > order && depth <= 4
      modifies this`basex, this`parms
      ensures basex == window[0].x && |parms| == depth
      ensures forall axis | 0 <= axis < depth :: AxisFitted(window, order, axis, parms[axis])
    {
      hide AxisFitted, Gram, Computable, Distinct, BestFit, PowerColumns, Projections, Moment, Axis;
      basex := window[0].x;
      var sumx := PowerSums();
      parms := [];
      for axis := 0 to depth
        invariant basex == window[0].x && |parms| == axis
        invariant forall k | 0 <= k < axis :: AxisFitted(window, order, k, parms[k])
      {
        var sumxy := ProductSums(axis);
        var xs := Normal(sumx);
        var finite, a := Multisolve(xs, sumxy);
        AxisDone(window, order, axis, finite, a);
        parms := parms + [if finite then Finite(a) else Undefined];
      }
    }

    /** sumx[j] is the sum of the j-th powers of the offsets. */
    method PowerSums() returns (sumx: Vector)
      requires |window| > 0
      ensures |sumx| == 2 * order + 1
      ensures forall j | 0 <= j <= 2 * order :: sumx[j] == Moment(Offsets(window, basex), j)
    {
      hide Pow, Moment, Offsets;
      ghost var ts := Offsets(window, basex);
      sumx := [|window| as real] + seq(2 * order, j => 0.0);
      NoMoments(ts, 2 * order);
      CountMoment(ts);
      for i := 0 to |window|
        invariant |sumx| == 2 * order + 1 && sumx[0] == |window| as real
        invariant forall j | 1 <= j <= 2 * order :: sumx[j] == Moment(ts[..i], j)
      {
        var ix := 1.0;
        var cx := window[i].x - basex;
        PowStep(cx, 0);
        for j := 0 to 2 * order
          invariant ix == Pow(cx, j)
          invariant |sumx| == 2 * order + 1 && sumx[0] == |window| as real
          invariant forall k | 1 <= k <= j :: sumx[k] == Moment(ts[..i + 1], k)
          invariant forall k | j < k <= 2 * order :: sumx[k] == Moment(ts[..i], k)
        {
          PowStep(cx, j);
          MomentNext(ts, i, j + 1);
          ix := ix * cx;
          sumx := sumx[j + 1 := sumx[j + 1] + ix];
        }
      }
      assert ts[..|window|] == ts;
    }

    /** sumxy[k] is the sum of the products of one axis with the k-th powers of the offsets. */
    method ProductSums(axis: nat) returns (sumxy: Vector)
      requires axis < 4
      ensures sumxy == Projections(PowerColumns(Offsets(window, basex), order + 1), Axis(window, axis))
    {
      hide Pow, Dot, Column;
      ghost var ts, ys := Offsets(window, basex), Axis(window, axis);
      sumxy := seq(order + 1, k => 0.0);
      NoProducts(ts, ys, order + 1);
      for j := 0 to |window|
        invariant |sumxy| == order + 1
        invariant forall k | 0 <= k <= order :: sumxy[k] == Dot(Column(ts, k)[..j], ys[..j])
      {
        var ixy := window[j].y[axis];
        var cx := window[j].x - basex;
        PowStep(cx, 0);
        for k := 0 to order + 1
          invariant ixy == Pow(cx, k) * ys[j]
          invariant |sumxy| == order + 1
          invariant forall i | 0 <= i < k :: sumxy[i] == Dot(Column(ts, i)[..j + 1], ys[..j + 1])
          invariant forall i | k <= i <= order :: sumxy[i] == Dot(Column(ts, i)[..j], ys[..j])
        {
          DotNext(Column(ts, k), ys, j);
          PowStep(cx, k);
          Reorder(Pow(cx, k), ys[j], cx);
          sumxy := sumxy[k := sumxy[k] + ixy];
          ixy := ixy * cx;
        }
      }
      forall k | 0 <= k <= order ensures sumxy[k] == Dot(Column(ts, k), ys) {
        assert Column(ts, k)[..|window|] == Column(ts, k) && ys[..|window|] == ys;
      }
    }

    /** The matrix of the normal equations: entry (j, k) is sumx[j + k]. */
    method Normal(sumx: Vector) returns (xs: Matrix)
      requires |sumx| == 2 * order + 1
      requires forall j | 0 <= j <= 2 * order :: sumx[j] == Moment(Offsets(window, basex), j)
      ensures xs == Gram(PowerColumns(Offsets(window, basex), order + 1), |window|)
    {
      hide Moment, Dot;
      ghost var ts := Offsets(window, basex);
      ghost var g := Gram(PowerColumns(ts, order + 1), |window|);
      xs := [];
      for j := 0 to order + 1
        invariant xs == g[..j]
      {
        var tx: Vector := [];
        for k := 0 to order + 1
          invariant tx == g[j][..k]
        {
          MomentIsDot(ts, k, j);
          DotComm(Column(ts, j), Column(ts, k));
          tx := tx + [sumx[k + j]];
        }
        assert tx == g[j];
        xs := xs + [tx];
      }
    }
  }

  lemma {:induction false} AxisDone(w: seq<Element>, order: nat, axis: nat, finite: bool, a: Vector)
    requires w != [] && axis < 4
    requires var c := PowerColumns(Offsets(w, w[0].x), order + 1);
             var g := Gram(c, |w|);
             (finite <==> Computable(g)) && (finite ==> Solves(g, a, Projections(c, Axis(w, axis))))
    ensures AxisFitted(w, order, axis, if finite then Finite(a) else Undefined)
  {
    hide Gram, Computable, Distinct, BestFit, Projections, PowerColumns;
    var ts := Offsets(w, w[0].x);
    FitIsDefined(ts, order);
    ShiftedPoints(w, w[0].x);
    if finite {
      SolutionFitsBest(ts, Axis(w, axis), order, a);
    }
  }

  lemma {:induction false} NoMoments(ts: Vector, n: nat)
    ensures forall j: nat :: Moment(ts[..0], j) == 0.0
  {
  }

  lemma {:induction false} CountMoment(ts: Vector)
    ensures Moment(ts, 0) == |ts| as real
  {
    if ts != [] {
      CountMoment(ts[..|ts| - 1]);
    }
  }

  lemma {:induction false} MomentNext(ts: Vector, i: nat, j: nat)
    requires i < |ts|
    ensures Moment(ts[..i + 1], j) == Moment(ts[..i], j) + Pow(ts[i], j)
  {
    assert ts[..i + 1][..i] == ts[..i];
  }

  lemma {:induction false} NoProducts(ts: Vector, ys: Vector, n: nat)
    ensures forall k: nat :: Dot(Column(ts, k)[..0], ys[..0]) == 0.0
  {
  }

  lemma {:induction false} Reorder(p: real, y: real, c: real)
    ensures (p * y) * c == (p * c) * y
  {
  }

  // ---------- runs of samples ----------

  /** The samples taken: those whose x is not that of the sample supplied just before. */
  function Taken(samples: seq<Element>): seq<Element>
  {
    if samples == [] then []
    else
      var n := |samples| - 1;
      Taken(samples[..n]) + if n > 0 && samples[n].x == samples[n - 1].x then [] else [samples[n]]
  }

  /** The sample taken last has the x of the sample supplied last, which is what the refusal looks at. */
  lemma {:induction false} LastTaken(samples: seq<Element>)
    requires samples != []
    ensures Taken(samples) != [] && Taken(samples)[|Taken(samples)| - 1].x == samples[|samples| - 1].x
  {
    var n := |samples| - 1;
    if n > 0 {
      LastTaken(samples[..n]);
    }
  }

  lemma {:induction false} TakenNext(samples: seq<Element>)
    requires samples != []
    ensures var before, e := Taken(samples[..|samples| - 1]), samples[|samples| - 1];
            Taken(samples) == if Repeats(before, e) then before else before + [e]
  {
    var n := |samples| - 1;
    if n > 0 {
      LastTaken(samples[..n]);
    }
  }

  /** The window after a run of samples of the same kind, from an empty one. */
  function WindowOf(samples: seq<Element>, depth: nat, limit: nat): seq<Element>
  {
    if samples == [] then []
    else Next(WindowOf(samples[..|samples| - 1], depth, limit), samples[|samples| - 1], depth, limit)
  }

  predicate SameOrMirror(a: Element, b: Element)
  {
    a.x == b.x && (a.y == b.y || a.y == Scale(-1.0, b.y))
  }

  ghost predicate HoldsNewest(w: seq<Element>, taken: seq<Element>, limit: nat)
  {
    && |w| == (if |taken| < limit then |taken| else limit)
    && forall i | 0 <= i < |w| :: SameOrMirror(w[i], taken[|taken| - |w| + i])
  }

  /** w holds the newest of the samples taken: the very newest as supplied, quaternions before it as supplied or
      mirrored, and other samples all as supplied. */
  ghost predicate NewestOf(w: seq<Element>, taken: seq<Element>, depth: nat, limit: nat)
  {
    && HoldsNewest(w, taken, limit)
    && (depth != 4 ==> w == taken[|taken| - |w|..])
    && (w != [] ==> w[|w| - 1] == taken[|taken| - 1])
  }

  /** No sudden switch between neighbours: their inner product is not negative. */
  ghost predicate Continuous(w: seq<Element>)
  {
    forall i | 0 <= i < |w| - 1 :: Dot(w[i].y, w[i + 1].y) >= 0.0
  }

  ghost predicate NeighboursDiffer(w: seq<Element>)
  {
    forall i | 0 <= i < |w| - 1 :: w[i].x != w[i + 1].x
  }

  /** |q - p| > |-q - p| exactly when the inner product is negative. */
  lemma {:induction false} NearerMirrorSign(q: Quad, p: Quad)
    ensures NearerMirror(q, p) <==> Dot(q, p) < 0.0
  {
    hide Dot, Plus, Scale;
    SquareOfSum(q, Scale(-1.0, p));
    SquareOfSum(Scale(-1.0, q), Scale(-1.0, p));
    DotScale(q, -1.0, p);
    DotScale(Scale(-1.0, q), -1.0, p);
    DotScale(Scale(-1.0, q), -1.0, q);
    DotComm(Scale(-1.0, q), p);
    DotComm(Scale(-1.0, q), q);
    DotScale(p, -1.0, q);
    DotScale(q, -1.0, q);
    DotComm(q, p);
  }

  lemma {:induction false} DotMirrored(a: Quad, b: Quad)
    ensures Dot(Scale(-1.0, a), Scale(-1.0, b)) == Dot(a, b)
    ensures Dot(Scale(-1.0, a), b) == -Dot(a, b)
  {
    hide Dot, Scale;
    DotScale(Scale(-1.0, a), -1.0, b);
    DotComm(Scale(-1.0, a), b);
    DotScale(b, -1.0, a);
    DotComm(b, a);
  }

  lemma {:induction false} MirrorTwice(a: Quad)
    ensures Scale(-1.0, Scale(-1.0, a)) == a
  {
  }

  lemma {:induction false} NextContinuous(w: seq<Element>, e: Element, limit: nat)
    requires Continuous(w)
    ensures Continuous(Next(w, e, 4, limit))
  {
    hide Dot, NearerMirror;
    if !Repeats(w, e) && w != [] {
      var last := w[|w| - 1];
      NearerMirrorSign(e.y, last.y);
      DotComm(e.y, last.y);
      var kept := if NearerMirror(e.y, last.y) then Mirrored(w) else w;
      forall i | 0 <= i < |w| - 1 ensures Dot(kept[i].y, kept[i + 1].y) >= 0.0 {
        DotMirrored(w[i].y, w[i + 1].y);
      }
      DotMirrored(last.y, e.y);
      forall i | 0 <= i < |kept| ensures Dot((kept + [e])[i].y, (kept + [e])[i + 1].y) >= 0.0 {
      }
    }
  }

  lemma {:induction false} NextHolds(w: seq<Element>, taken: seq<Element>, e: Element, depth: nat, limit: nat)
    requires limit >= 1 && HoldsNewest(w, taken, limit) && (w == [] <==> taken == [])
    ensures Repeats(w, e) == Repeats(taken, e)
    ensures HoldsNewest(Next(w, e, depth, limit), if Repeats(taken, e) then taken else taken + [e], limit)
  {
    hide NearerMirror;
    if w != [] {
      assert SameOrMirror(w[|w| - 1], taken[|taken| - 1]);
    }
    forall i | 0 <= i < |w| ensures SameOrMirror(Mirrored(w)[i], taken[|taken| - |w| + i]) {
      MirrorTwice(taken[|taken| - |w| + i].y);
    }
  }

  lemma {:induction false} NextAsSupplied(w: seq<Element>, taken: seq<Element>, e: Element, depth: nat, limit: nat)
    requires limit >= 1 && depth != 4 && |w| <= |taken| && |w| <= limit && w == taken[|taken| - |w|..]
    requires !Repeats(w, e)
    ensures var r, longer := Next(w, e, depth, limit), taken + [e];
            |r| <= |longer| && r == longer[|longer| - |r|..]
  {
    hide NearerMirror;
    var longer := taken + [e];
    assert w + [e] == longer[|taken| - |w|..];
    if |w| == limit {
      assert (w + [e])[1..] == longer[|taken| - |w| + 1..];
    }
  }

  lemma {:induction false} NextNewest(w: seq<Element>, taken: seq<Element>, e: Element, depth: nat, limit: nat)
    requires limit >= 1 && NewestOf(w, taken, depth, limit)
    ensures Repeats(w, e) == Repeats(taken, e)
    ensures NewestOf(Next(w, e, depth, limit), if Repeats(taken, e) then taken else taken + [e], depth, limit)
  {
    hide NearerMirror, SameOrMirror, Mirrored;
    NextHolds(w, taken, e, depth, limit);
    if !Repeats(w, e) {
      NextTakes(w, e, depth, limit);
      if depth != 4 {
        NextAsSupplied(w, taken, e, depth, limit);
      }
    }
  }

  lemma {:induction false} NextNeighbours(w: seq<Element>, e: Element, depth: nat, limit: nat)
    requires NeighboursDiffer(w)
    ensures NeighboursDiffer(Next(w, e, depth, limit))
  {
    hide NearerMirror;
  }

  /**
   Over any run the window holds the newest samples taken, each as supplied or mirrored, and no two
   neighbours have the same x; over a run of quaternions it never holds a sudden switch.
  */
  lemma {:induction false} WindowInvariant(samples: seq<Element>, depth: nat, limit: nat)
    requires limit >= 1
    ensures var w := WindowOf(samples, depth, limit);
            NewestOf(w, Taken(samples), depth, limit) && NeighboursDiffer(w) && (depth == 4 ==> Continuous(w))
  {
    hide Next, Repeats;
    if samples != [] {
      var before, e := samples[..|samples| - 1], samples[|samples| - 1];
      WindowInvariant(before, depth, limit);
      var w := WindowOf(before, depth, limit);
      TakenNext(samples);
      NextNewest(w, Taken(before), e, depth, limit);
      NextNeighbours(w, e, depth, limit);
      if depth == 4 { NextContinuous(w, e, limit); }
    }
  }

  /** For a straight line the samples refused are enough to keep every fit defined. */
  lemma {:induction false} LineAlwaysDefined(samples: seq<Element>, depth: nat, limit: nat)
    requires limit >= 1
    ensures var w := WindowOf(samples, depth, limit);
            |w| > 1 ==> |Distinct(Xs(w))| > 1
  {
    hide WindowOf, Distinct, NewestOf, Continuous, Taken;
    WindowInvariant(samples, depth, limit);
    var w := WindowOf(samples, depth, limit);
    if |w| > 1 {
      DistinctMembers(Xs(w));
      var pair := {Xs(w)[0], Xs(w)[1]};
      assert w[0].x != w[1].x;
      SubsetSize(pair, Distinct(Xs(w)));
    }
  }

  lemma {:induction false} SubsetSize(a: set<real>, b: set<real>)
    requires a <= b
    ensures |a| <= |b|
  {
    assert b == a + (b - a);
  }
}
