/** The integrator is exact on polynomial paths, over any number of steps. */
module IntegratorProofs {
  import opened Vectors
  import opened Polynomials
  import opened Derivatives
  import opened IntegratorSums
  import opened IntegratorSpec

  /** Position on a path: the step size enters twice. */
  function PositionOn(p: Vector, dvi: real, x: real): real
  {
    dvi * dvi * Eval(p, x)
  }

  function VelocityOn(p: Vector, dvi: real, x: real): real
  {
    dvi * Eval(Derivative(p), x)
  }

  /** Step size, force, the polynomial path of every axis in steps of the independent variable, and its value at
      step 0. */
  datatype Motion = Motion(order: nat, dvi: real, force: Force, origin: real, paths: seq<Vector>)
  {
    function TimeAt(x: real): real
    {
      origin + dvi * x
    }

    lemma {:induction false} Later(x: real, y: real)
      requires y == x + 1.0
      ensures TimeAt(y) == TimeAt(x) + dvi
    {
    }

    function PositionsAt(x: real): (v: Vector)
      ensures |v| == |paths|
    {
      seq(|paths|, k requires 0 <= k < |paths| => PositionOn(paths[k], dvi, x))
    }

    function VelocitiesAt(x: real): (v: Vector)
      ensures |v| == |paths|
    {
      seq(|paths|, k requires 0 <= k < |paths| => VelocityOn(paths[k], dvi, x))
    }

    function ForcesAt(x: real): (v: Vector)
      ensures |v| == |paths|
    {
      seq(|paths|, k requires 0 <= k < |paths| => Eval(DerivativeN(paths[k], 2), x))
    }

    /** On these paths the force is their second derivative, which has at most the degree `order`. */
    ghost predicate Valid()
    {
      && dvi != 0.0
      && (forall k | 0 <= k < |paths| :: |paths[k]| <= order + 3)
      && forall x: real :: force(TimeAt(x), PositionsAt(x)) == ForcesAt(x)
    }

    lemma {:induction false} AtStep(x: real)
      requires Valid()
      ensures force(TimeAt(x), PositionsAt(x)) == ForcesAt(x)
    {
    }

    lemma {:induction false} Degrees()
      requires Valid()
      ensures dvi != 0.0 && forall k | 0 <= k < |paths| :: |paths[k]| <= order + 3
    {
    }
  }

  // ---------- the sums on a path ----------

  /** s at x: the velocity less what the weights b of its own step add. */
  function FirstSum(order: nat, p: Vector, x: real): real
  {
    var f := DerivativeN(p, 2);
    Eval(Derivative(p), x) - VelocitySum(order, f, x) - Eval(f, x) / 2.0
  }

  /** ss at x: the position less what the weights a of its own step add. */
  function SecondSum(order: nat, p: Vector, x: real): real
  {
    Eval(p, x) - PositionSum(order, DerivativeN(p, 2), x)
  }

  lemma {:induction false} FirstSumIs(order: nat, p: Vector, x: real)
    requires |p| <= order + 3
    ensures FirstSum(order, p, x) == Once(order + 2, Derivative(p), x) - Eval(DerivativeN(p, 2), x) / 2.0
  {
    hide Eval, Derivative, VelocitySum, Once;
    Exactness.Twice(p);
    VelocityRest(order, Derivative(p), x);
  }

  /** The sums grow by the trapezoid rule. */
  lemma {:induction false} FirstSumStep(order: nat, p: Vector, x: real)
    requires |p| <= order + 3
    ensures var f := DerivativeN(p, 2);
            FirstSum(order, p, x) == FirstSum(order, p, x - 1.0) + (Eval(f, x) + Eval(f, x - 1.0)) / 2.0
  {
    hide Eval, Derivative, DerivativeN, FirstSum, Once;
    Exactness.Twice(p);
    FirstSumIs(order, p, x);
    FirstSumIs(order, p, x - 1.0);
    OnceSteps(order + 2, Derivative(p), x);
  }

  lemma {:induction false} SecondSumStep(order: nat, p: Vector, x: real)
    requires |p| <= order + 3
    ensures var f := DerivativeN(p, 2);
            SecondSum(order, p, x) ==
            SecondSum(order, p, x - 1.0) + FirstSum(order, p, x - 1.0) + Eval(f, x - 1.0) / 2.0
  {
    hide Eval, Derivative, DerivativeN, FirstSum, Once, OnceMore, PositionSum;
    PositionRest(order, p, x);
    PositionRest(order, p, x - 1.0);
    OnceMoreSteps(order, p, x - 1.0);
    FirstSumIs(order, p, x - 1.0);
  }

  /** The weights of row j on the second derivatives complete the sums, for every step known and the next one. */
  lemma {:induction false} WeightsComplete(order: nat, p: Vector, base: real, j: nat)
    requires |p| <= order + 3 && j <= order + 1
    ensures var f := DerivativeN(p, 2);
            var v, x := Samples(f, base, order + 1), base + j as real;
            && SecondSum(order, p, x) + Dot(AWeights(order, j), v) == Eval(p, x)
            && FirstSum(order, p, x) + Dot(BWeights(order, j), v) ==
               Eval(Derivative(p), x) + if j <= order then 0.0 else Eval(f, x) / 2.0
  {
    hide Eval, Derivative, DerivativeN, PositionSum, VelocitySum, Dot, AWeights, BWeights, Samples;
    WeighPosition(order, DerivativeN(p, 2), base, j);
    WeighVelocity(order, DerivativeN(p, 2), base, j);
  }

  // ---------- steps on a path ----------

  /** Position, velocity and second derivative are those of the path at x. */
  ghost predicate ValuesOn(step: GjStep, p: Vector, dvi: real, x: real)
  {
    && step.vd0 == PositionOn(p, dvi, x)
    && step.vd1 == VelocityOn(p, dvi, x)
    && step.vd2 == Eval(DerivativeN(p, 2), x)
  }

  ghost predicate SumsOn(step: GjStep, order: nat, p: Vector, x: real)
  {
    step.s == FirstSum(order, p, x) && step.ss == SecondSum(order, p, x)
  }

  ghost predicate AxisOn(axis: Axis, order: nat, dvi: real, p: Vector, base: real)
    requires Shaped(axis, order)
  {
    && (forall j | 0 <= j <= order ::
          ValuesOn(axis[j], p, dvi, base + j as real) && SumsOn(axis[j], order, p, base + j as real))
    && axis[order + 1].a == AWeights(order, order + 1) && axis[order + 1].b == BWeights(order, order + 1)
  }

  ghost predicate TimesOn(vi: seq<real>, m: Motion, base: real)
    requires |vi| == m.order + 2
  {
    forall j | 0 <= j <= m.order :: vi[j] == m.TimeAt(base + j as real)
  }

  /** All steps lie on the paths, from `base` on, and all sums with them. */
  ghost predicate On(state: State, m: Motion, base: real)
    requires AllShaped(state, m.order)
  {
    && |state.steps| == |m.paths| && TimesOn(state.vi, m, base)
    && forall k {:trigger state.steps[k]} | 0 <= k < |m.paths| ::
         AxisOn(state.steps[k], m.order, m.dvi, m.paths[k], base)
  }

  lemma {:induction false} SecondDerivativesOn(axis: Axis, order: nat, p: Vector, base: real)
    requires Shaped(axis, order)
    requires forall j | 0 <= j <= order :: axis[j].vd2 == Eval(DerivativeN(p, 2), base + j as real)
    ensures SecondDerivatives(axis, order) == Samples(DerivativeN(p, 2), base, order + 1)
  {
    hide Eval, Derivative, DerivativeN;
  }

  /** All that a prediction looks at: the second derivatives, and the sums of the last step. Whatever they are, they
      are those of some path of the right degree. */
  ghost predicate AxisReady(axis: Axis, order: nat, p: Vector, base: real)
    requires Shaped(axis, order)
  {
    && (forall j | 0 <= j <= order :: axis[j].vd2 == Eval(DerivativeN(p, 2), base + j as real))
    && SumsOn(axis[order], order, p, base + order as real)
    && axis[order + 1].a == AWeights(order, order + 1) && axis[order + 1].b == BWeights(order, order + 1)
  }

  /** The step predicted lies on that path, wherever positions and velocities were before. */
  lemma {:induction false} Predicts(axis: Axis, order: nat, dvi: real, p: Vector, base: real)
    requires Shaped(axis, order) && |p| <= order + 3 && AxisReady(axis, order, p, base)
    ensures var x := base + (order + 1) as real;
            var next := Predicted(axis, order, dvi);
            && next.vd0 == PositionOn(p, dvi, x) && next.vd1 == VelocityOn(p, dvi, x)
            && ValuesOn(Completed(next, axis[order], Eval(DerivativeN(p, 2), x)), p, dvi, x)
            && SumsOn(Completed(next, axis[order], Eval(DerivativeN(p, 2), x)), order, p, x)
  {
    hide Eval, Derivative, DerivativeN, Dot, AWeights, BWeights, Samples, FirstSum, SecondSum;
    var x := base + (order + 1) as real;
    assert x - 1.0 == base + order as real;
    SecondDerivativesOn(axis, order, p, base);
    FirstSumStep(order, p, x);
    SecondSumStep(order, p, x);
    WeightsComplete(order, p, base, order + 1);
  }

  /** The step predicted lies on the path. */
  lemma {:induction false} PredictedOn(axis: Axis, order: nat, dvi: real, p: Vector, base: real)
    requires Shaped(axis, order) && |p| <= order + 3 && AxisOn(axis, order, dvi, p, base)
    ensures var x := base + (order + 1) as real;
            var next := Predicted(axis, order, dvi);
            && next.vd0 == PositionOn(p, dvi, x) && next.vd1 == VelocityOn(p, dvi, x)
            && ValuesOn(Completed(next, axis[order], Eval(DerivativeN(p, 2), x)), p, dvi, x)
            && SumsOn(Completed(next, axis[order], Eval(DerivativeN(p, 2), x)), order, p, x)
  {
    hide Eval, Derivative, DerivativeN, Dot, AWeights, BWeights, FirstSum, SecondSum, Predicted, Completed, PositionOn,
         VelocityOn;
    forall j | 0 <= j <= order ensures axis[j].vd2 == Eval(DerivativeN(p, 2), base + j as real) {
      assert ValuesOn(axis[j], p, dvi, base + j as real);
    }
    assert SumsOn(axis[order], order, p, base + order as real);
    Predicts(axis, order, dvi, p, base);
  }

  lemma {:induction false} NextAxisOn(axis: Axis, order: nat, dvi: real, p: Vector, base: real, vd2: real)
    requires Shaped(axis, order) && |p| <= order + 3 && AxisOn(axis, order, dvi, p, base)
    requires vd2 == Eval(DerivativeN(p, 2), base + (order + 1) as real)
    ensures var r := NextAxis(axis, order, Predicted(axis, order, dvi), vd2);
            Shaped(r, order) && AxisOn(r, order, dvi, p, base + 1.0)
  {
    hide Predicted, ValuesOn, SumsOn, Eval, AWeights, BWeights, DerivativeN;
    PredictedOn(axis, order, dvi, p, base);
    var r := NextAxis(axis, order, Predicted(axis, order, dvi), vd2);
    forall j | 0 <= j <= order
      ensures ValuesOn(r[j], p, dvi, base + 1.0 + j as real) && SumsOn(r[j], order, p, base + 1.0 + j as real)
    {
      assert base + (j + 1) as real == base + 1.0 + j as real;
    }
  }

  lemma {:induction false} TimesNext(vi: seq<real>, m: Motion, base: real)
    requires |vi| == m.order + 2 && TimesOn(vi, m, base)
    ensures var t := vi[m.order] + m.dvi;
            && t == m.TimeAt(base + (m.order + 1) as real)
            && TimesOn(Moved(vi[m.order + 1 := t]), m, base + 1.0)
  {
    hide Motion.TimeAt;
    var n := m.order;
    var t := vi[n] + m.dvi;
    m.Later(base + n as real, base + (n + 1) as real);
    var r := Moved(vi[n + 1 := t]);
    forall j | 0 <= j <= n ensures r[j] == m.TimeAt(base + 1.0 + j as real) {
      assert base + (j + 1) as real == base + 1.0 + j as real;
    }
  }

  /** The positions predicted are those of the paths. */
  lemma {:induction false} PositionsOn(state: State, m: Motion, base: real)
    requires AllShaped(state, m.order) && m.Valid() && On(state, m, base)
    ensures Positions(PredictedSteps(state, m.order, m.dvi)) == m.PositionsAt(base + (m.order + 1) as real)
  {
    hide Predicted, AxisOn, TimesOn, Shaped, PositionOn, VelocityOn, DerivativeN, ValuesOn, SumsOn, Completed,
         Motion.Valid;
    m.Degrees();
    var x := base + (m.order + 1) as real;
    var next := PredictedSteps(state, m.order, m.dvi);
    forall k | 0 <= k < |m.paths| ensures Positions(next)[k] == m.PositionsAt(x)[k] {
      PredictedOn(state.steps[k], m.order, m.dvi, m.paths[k], base);
    }
  }

  /** What one step makes of the state, the force being that of the paths. */
  lemma {:induction false} ChunkParts(state: State, m: Motion, base: real)
    requires AllShaped(state, m.order) && m.Valid() && On(state, m, base)
    ensures var r := Chunk(state, m.order, m.dvi, m.force);
            var f := m.ForcesAt(base + (m.order + 1) as real);
            && TimesOn(r.vi, m, base + 1.0)
            && forall k {:trigger r.steps[k]} | 0 <= k < |m.paths| ::
                 r.steps[k] == NextAxis(state.steps[k], m.order, Predicted(state.steps[k], m.order, m.dvi), f[k])
  {
    hide Predicted, AxisOn, TimesOn, NextAxis, Shaped, Eval, DerivativeN, Motion.Valid, Motion.TimeAt, Moved;
    m.AtStep(base + (m.order + 1) as real);
    TimesNext(state.vi, m, base);
    PositionsOn(state, m, base);
  }

  /** One step for all axes keeps them on their paths. */
  lemma {:induction false} ChunkOn(state: State, m: Motion, base: real)
    requires AllShaped(state, m.order) && m.Valid() && On(state, m, base)
    ensures On(Chunk(state, m.order, m.dvi, m.force), m, base + 1.0)
  {
    hide Predicted, AxisOn, TimesOn, NextAxis, Shaped, Eval, DerivativeN, Chunk, Motion.Valid;
    m.Degrees();
    ChunkParts(state, m, base);
    var r := Chunk(state, m.order, m.dvi, m.force);
    forall k | 0 <= k < |m.paths| ensures AxisOn(r.steps[k], m.order, m.dvi, m.paths[k], base + 1.0) {
      NextAxisOn(state.steps[k], m.order, m.dvi, m.paths[k], base,
                 m.ForcesAt(base + (m.order + 1) as real)[k]);
    }
  }

  /** Extrapolation is exact on polynomial paths: after any number of steps all values are those of the paths. */
  lemma {:induction false} ExtrapolationIsExact(state: State, m: Motion, base: real, n: nat)
    requires AllShaped(state, m.order) && m.Valid() && On(state, m, base)
    ensures On(Chunks(state, m.order, m.dvi, m.force, n), m, base + n as real)
    decreases n
  {
    hide Chunk, On;
    if n > 0 {
      ExtrapolationIsExact(state, m, base, n - 1);
      ChunkOn(Chunks(state, m.order, m.dvi, m.force, n - 1), m, base + (n - 1) as real);
      assert base + (n - 1) as real + 1.0 == base + n as real;
    } else {
      assert base + 0.0 == base;
    }
  }

  // ---------- the preset ----------

  ghost predicate OwnWeights(axis: Axis, order: nat)
    requires Shaped(axis, order)
  {
    forall j | 0 <= j <= order + 1 :: axis[j].a == AWeights(order, j) && axis[j].b == BWeights(order, j)
  }

  /** The middle step lies on the path, and all second derivatives are those of the path. */
  ghost predicate AxisSupplied(axis: Axis, order: nat, dvi: real, p: Vector, base: real)
    requires Shaped(axis, order)
  {
    && OwnWeights(axis, order)
    && ValuesOn(axis[order / 2], p, dvi, base + (order / 2) as real)
    && forall j | 0 <= j <= order :: axis[j].vd2 == Eval(DerivativeN(p, 2), base + j as real)
  }

  ghost predicate AxisGiven(axis: Axis, order: nat, dvi: real, p: Vector, base: real)
    requires Shaped(axis, order)
  {
    && OwnWeights(axis, order)
    && forall j | 0 <= j <= order :: ValuesOn(axis[j], p, dvi, base + j as real)
  }

  /** All steps lie on the paths, and every step has the weights of its own row. */
  ghost predicate Given(state: State, m: Motion, base: real)
    requires AllShaped(state, m.order)
  {
    && |state.steps| == |m.paths| && TimesOn(state.vi, m, base)
    && forall k {:trigger state.steps[k]} | 0 <= k < |m.paths| ::
         AxisGiven(state.steps[k], m.order, m.dvi, m.paths[k], base)
  }

  /** A new instance with its first n steps set to the paths. */
  function FilledTo(m: Motion, base: real, n: nat): (state: State)
    requires n <= m.order + 1
    ensures AllShaped(state, m.order) && |state.steps| == |m.paths|
  {
    if n == 0 then NewState(m.order, |m.paths|)
    else
      var x := base + (n - 1) as real;
      SetAt(FilledTo(m, base, n - 1), m.order, n - 1, m.TimeAt(x), m.PositionsAt(x), m.VelocitiesAt(x), m.ForcesAt(x))
  }

  lemma {:induction false} FilledSteps(m: Motion, base: real, n: nat, k: nat, j: nat)
    requires n <= m.order + 1 && k < |m.paths| && j < m.order + 2
    ensures var step := FilledTo(m, base, n).steps[k][j];
      && step.a == AWeights(m.order, j) && step.b == BWeights(m.order, j) && step.s == 0.0 && step.ss == 0.0
      && (j < n ==> ValuesOn(step, m.paths[k], m.dvi, base + j as real))
    decreases n
  {
    hide AWeights, BWeights, PositionOn, VelocityOn, DerivativeN, Motion.TimeAt;
    if n > 0 {
      FilledSteps(m, base, n - 1, k, j);
    }
  }

  lemma {:induction false} FilledTimes(m: Motion, base: real, n: nat, j: nat)
    requires j < n <= m.order + 1
    ensures FilledTo(m, base, n).vi[j] == m.TimeAt(base + j as real)
    decreases n
  {
    hide Motion.TimeAt, Motion.PositionsAt, Motion.VelocitiesAt, Motion.ForcesAt;
    if j < n - 1 {
      FilledTimes(m, base, n - 1, j);
    }
  }

  /** A new instance filled step by step is given on the paths; all its sums are still 0. */
  lemma {:induction false} FilledIsGiven(m: Motion, base: real)
    ensures var state := FilledTo(m, base, m.order + 1);
      && Given(state, m, base)
      && forall k {:trigger state.steps[k]} | 0 <= k < |m.paths| :: state.steps[k][m.order].s == 0.0
  {
    hide AWeights, BWeights, ValuesOn, Motion.TimeAt, FilledTo;
    var n := m.order + 1;
    var state := FilledTo(m, base, n);
    forall j | 0 <= j < n ensures state.vi[j] == m.TimeAt(base + j as real) {
      FilledTimes(m, base, n, j);
    }
    forall k | 0 <= k < |m.paths|
      ensures AxisGiven(state.steps[k], m.order, m.dvi, m.paths[k], base) && state.steps[k][m.order].s == 0.0
    {
      forall j: nat | j <= n
        ensures state.steps[k][j].a == AWeights(m.order, j) && state.steps[k][j].b == BWeights(m.order, j)
        ensures j < n ==> ValuesOn(state.steps[k][j], m.paths[k], m.dvi, base + j as real)
      {
        FilledSteps(m, base, n, k, j);
      }
      FilledSteps(m, base, n, k, m.order);
    }
  }

  lemma {:induction false} GivenIsSupplied(axis: Axis, order: nat, dvi: real, p: Vector, base: real)
    requires Shaped(axis, order) && AxisGiven(axis, order, dvi, p, base)
    ensures AxisSupplied(axis, order, dvi, p, base)
  {
    hide AWeights, BWeights, PositionOn, VelocityOn, DerivativeN;
    forall j | 0 <= j <= order ensures axis[j].vd2 == Eval(DerivativeN(p, 2), base + j as real) {
      assert ValuesOn(axis[j], p, dvi, base + j as real);
    }
    assert ValuesOn(axis[order / 2], p, dvi, base + (order / 2) as real);
  }

  lemma {:induction false} FirstSumOn(axis: Axis, order: nat, dvi: real, p: Vector, base: real, j: nat)
    requires Shaped(axis, order) && dvi != 0.0 && |p| <= order + 3 && AxisSupplied(axis, order, dvi, p, base)
    requires j <= 2 * (order / 2)
    ensures FirstSumAt(axis, order, dvi, j) == FirstSum(order, p, base + j as real)
    decreases if j < order / 2 then order / 2 - j else j - order / 2
  {
    hide Eval, Derivative, DerivativeN, Dot, AWeights, BWeights, Samples, FirstSum, SecondSum, FirstSumAt;
    var half := order / 2;
    var x := base + j as real;
    FirstSumRule(axis, order, dvi, j);
    if j == half {
      SecondDerivativesOn(axis, order, p, base);
      WeightsComplete(order, p, base, half);
      Share(dvi, Eval(Derivative(p), x));
    } else if j > half {
      FirstSumOn(axis, order, dvi, p, base, j - 1);
      assert x - 1.0 == base + (j - 1) as real;
      FirstSumStep(order, p, x);
    } else {
      FirstSumOn(axis, order, dvi, p, base, j + 1);
      assert x + 1.0 == base + (j + 1) as real && x + 1.0 - 1.0 == x;
      FirstSumStep(order, p, x + 1.0);
    }
  }

  lemma {:induction false} Share(k: real, v: real)
    requires k != 0.0
    ensures k * v / k == v
  {
  }

  lemma {:induction false} ShareOf(kk: real, t: real, v: real)
    requires kk == t && t > 0.0
    ensures kk != 0.0 && kk * v / kk == v
  {
  }

  lemma {:induction false} ShareTwice(k: real, v: real, u: real)
    requires k != 0.0 && u == k * k * v
    ensures k * k != 0.0 && u / (k * k) == v
  {
    SquareSign(k);
    ShareOf(k * k, Times(k, k), v);
  }

  lemma {:induction false} SecondSumMiddle(axis: Axis, order: nat, dvi: real)
    requires Shaped(axis, order) && dvi != 0.0
    ensures dvi * dvi != 0.0
    ensures var half := order / 2;
            SecondSumAt(axis, order, dvi, half) ==
            axis[half].vd0 / (dvi * dvi) - Dot(axis[half].a, SecondDerivatives(axis, order))
  {
    ShareTwice(dvi, 0.0, 0.0);
  }

  lemma {:induction false} SecondSumOn(axis: Axis, order: nat, dvi: real, p: Vector, base: real, j: nat)
    requires Shaped(axis, order) && dvi != 0.0 && |p| <= order + 3 && AxisSupplied(axis, order, dvi, p, base)
    requires j <= 2 * (order / 2)
    ensures SecondSumAt(axis, order, dvi, j) == SecondSum(order, p, base + j as real)
    decreases if j < order / 2 then order / 2 - j else j - order / 2
  {
    hide Eval, Derivative, DerivativeN, Dot, AWeights, BWeights, Samples, FirstSum, SecondSum, FirstSumAt;
    var half := order / 2;
    var x := base + j as real;
    if j == half {
      SecondDerivativesOn(axis, order, p, base);
      WeightsComplete(order, p, base, half);
      ShareTwice(dvi, Eval(p, x), axis[j].vd0);
      SecondSumMiddle(axis, order, dvi);
    } else if j > half {
      SecondSumOn(axis, order, dvi, p, base, j - 1);
      FirstSumOn(axis, order, dvi, p, base, j - 1);
      assert x - 1.0 == base + (j - 1) as real;
      SecondSumStep(order, p, x);
    } else {
      SecondSumOn(axis, order, dvi, p, base, j + 1);
      FirstSumOn(axis, order, dvi, p, base, j + 1);
      assert x + 1.0 == base + (j + 1) as real && x + 1.0 - 1.0 == x;
      FirstSumStep(order, p, x + 1.0);
      SecondSumStep(order, p, x + 1.0);
    }
  }

  /** A step with its sums set is placed on the path. */
  lemma {:induction false} PlacedOn(axis: Axis, order: nat, dvi: real, p: Vector, base: real, j: nat)
    requires Shaped(axis, order) && dvi != 0.0 && |p| <= order + 3 && AxisSupplied(axis, order, dvi, p, base)
    requires j <= order
    ensures var x := base + j as real;
            var summed := SummedStep(axis, order, dvi, j);
            && summed.vd0 == axis[j].vd0 && summed.vd1 == axis[j].vd1 && summed.vd2 == axis[j].vd2
            && summed.a == axis[j].a && summed.b == axis[j].b
            && (j <= 2 * (order / 2) ==> SumsOn(summed, order, p, x))
            && (j > 2 * (order / 2) ==> summed.s == axis[j].s && summed.ss == axis[j].ss)
            && (Corrected(order, j) ==> ValuesOn(Placed(summed, dvi), p, dvi, x))
  {
    hide Eval, Derivative, DerivativeN, Dot, AWeights, BWeights, Samples, FirstSum, SecondSum, FirstSumAt, SecondSumAt;
    SecondDerivativesOn(axis, order, p, base);
    if j <= 2 * (order / 2) {
      FirstSumOn(axis, order, dvi, p, base, j);
      SecondSumOn(axis, order, dvi, p, base, j);
      WeightsComplete(order, p, base, j);
    }
  }

  /** The pass for one step of one axis. */
  ghost predicate StepKept(before: GjStep, after: GjStep, order: nat, dvi: real, p: Vector, base: real, j: nat)
  {
    && after.a == before.a && after.b == before.b
    && (j <= order ==> ValuesOn(after, p, dvi, base + j as real))
    && (j <= 2 * (order / 2) ==> SumsOn(after, order, p, base + j as real))
    && (j > 2 * (order / 2) ==> after.s == before.s && after.ss == before.ss)
  }

  ghost predicate Kept(before: Axis, after: Axis, order: nat, dvi: real, p: Vector, base: real)
    requires Shaped(before, order) && Shaped(after, order)
  {
    forall j | 0 <= j < order + 2 :: StepKept(before[j], after[j], order, dvi, p, base, j)
  }

  lemma {:induction false} PlaceOn(axis: Axis, m: Motion, base: real, k: nat, j: nat)
    requires Shaped(axis, m.order) && m.dvi != 0.0 && k < |m.paths| && |m.paths[k]| <= m.order + 3
    requires AxisGiven(axis, m.order, m.dvi, m.paths[k], base) && Corrected(m.order, j)
    ensures Placed(Summed(axis, m.order, m.dvi)[j], m.dvi).vd0 == m.PositionsAt(base + j as real)[k]
  {
    hide AxisGiven, Shaped, PositionOn, VelocityOn, DerivativeN, SummedStep, Placed;
    GivenIsSupplied(axis, m.order, m.dvi, m.paths[k], base);
    PlacedOn(axis, m.order, m.dvi, m.paths[k], base, j);
  }

  lemma {:induction false} PlacesOn(state: State, m: Motion, base: real, j: nat)
    requires AllShaped(state, m.order) && m.Valid() && Given(state, m, base) && Corrected(m.order, j)
    ensures var placed := PlacedSteps(SummedAxes(state.steps, m.order, m.dvi), m.order, m.dvi, j);
            Positions(placed) == m.PositionsAt(base + j as real)
  {
    hide Motion.Valid, AxisGiven, TimesOn, Shaped, PositionOn, SummedStep, Placed, Summed;
    m.Degrees();
    var summed := SummedAxes(state.steps, m.order, m.dvi);
    var placed := PlacedSteps(summed, m.order, m.dvi, j);
    forall k | 0 <= k < |m.paths| ensures Positions(placed)[k] == m.PositionsAt(base + j as real)[k] {
      PlaceOn(state.steps[k], m, base, k, j);
    }
  }

  lemma {:induction false} PassStep(state: State, order: nat, dvi: real, force: Force, k: nat, j: nat)
    requires AllShaped(state, order) && dvi != 0.0 && k < |state.steps| && j < order + 2
    ensures var summed := SummedAxes(state.steps, order, dvi);
            var step := SummedStep(state.steps[k], order, dvi, j);
            var placed := PlacedSteps(summed, order, dvi, j);
            Pass(state, order, dvi, force).steps[k][j] ==
            if Corrected(order, j) then Placed(step, dvi).(vd2 := force(state.vi[j], Positions(placed))[k]) else step
  {
    hide Corrected, Placed, SummedStep;
    var summed := State(state.vi, SummedAxes(state.steps, order, dvi));
    assert Pass(state, order, dvi, force).steps[k][j] == CorrectedStep(summed, order, dvi, force, k, j);
  }

  lemma {:induction false} StepIsKept(state: State, m: Motion, base: real, k: nat, j: nat)
    requires AllShaped(state, m.order) && m.Valid() && Given(state, m, base)
    requires k < |m.paths| && j < m.order + 2
    ensures StepKept(state.steps[k][j], Pass(state, m.order, m.dvi, m.force).steps[k][j], m.order, m.dvi,
                     m.paths[k], base, j)
  {
    hide Motion.Valid, Motion.TimeAt, Eval, Derivative, DerivativeN, SummedAxes, Pass, Positions, FirstSumAt,
         SecondSumAt, Dot, AWeights, BWeights, FirstSum, SecondSum, OwnWeights;
    m.Degrees();
    PassStep(state, m.order, m.dvi, m.force, k, j);
    if j <= m.order {
      GivenIsSupplied(state.steps[k], m.order, m.dvi, m.paths[k], base);
      PlacedOn(state.steps[k], m.order, m.dvi, m.paths[k], base, j);
      if Corrected(m.order, j) {
        PlacesOn(state, m, base, j);
        m.AtStep(base + j as real);
      }
    }
  }

  lemma {:induction false} KeptIsGiven(before: Axis, after: Axis, order: nat, dvi: real, p: Vector, base: real)
    requires Shaped(before, order) && Shaped(after, order) && AxisGiven(before, order, dvi, p, base)
    requires Kept(before, after, order, dvi, p, base)
    ensures AxisGiven(after, order, dvi, p, base)
  {
    hide ValuesOn, SumsOn, AWeights, BWeights;
  }

  lemma {:induction false} KeptTwice(before: Axis, next: Axis, after: Axis, order: nat, dvi: real, p: Vector,
                                     base: real)
    requires Shaped(before, order) && Shaped(next, order) && Shaped(after, order)
    requires Kept(before, next, order, dvi, p, base) && Kept(next, after, order, dvi, p, base)
    ensures Kept(before, after, order, dvi, p, base)
  {
    hide ValuesOn, SumsOn, Shaped;
  }

  lemma {:induction false} AxisKept(state: State, m: Motion, base: real, k: nat)
    requires AllShaped(state, m.order) && m.Valid() && Given(state, m, base) && k < |m.paths|
    ensures Kept(state.steps[k], Pass(state, m.order, m.dvi, m.force).steps[k], m.order, m.dvi, m.paths[k], base)
  {
    hide Motion.Valid, TimesOn, AxisGiven, StepKept, Pass;
    m.Degrees();
    forall j: nat | j < m.order + 2
      ensures StepKept(state.steps[k][j], Pass(state, m.order, m.dvi, m.force).steps[k][j], m.order, m.dvi,
                       m.paths[k], base, j)
    {
      StepIsKept(state, m, base, k, j);
    }
  }

  /** A pass over given values keeps them. */
  lemma {:induction false} PassKeeps(state: State, m: Motion, base: real)
    requires AllShaped(state, m.order) && m.Valid() && Given(state, m, base)
    ensures Given(Pass(state, m.order, m.dvi, m.force), m, base)
  {
    hide Motion.Valid, TimesOn, AxisGiven, Shaped, Kept;
    m.Degrees();
    var r := Pass(state, m.order, m.dvi, m.force);
    forall k | 0 <= k < |m.paths| ensures AxisGiven(r.steps[k], m.order, m.dvi, m.paths[k], base) {
      AxisKept(state, m, base, k);
      KeptIsGiven(state.steps[k], r.steps[k], m.order, m.dvi, m.paths[k], base);
    }
  }

  /** So do several, and the sums are those of the path but for a last step that is not summed. */
  lemma {:induction false} PassesKeep(state: State, m: Motion, base: real, left: nat)
    requires AllShaped(state, m.order) && m.Valid() && Given(state, m, base) && left > 0
    ensures var r := Passes(state, m.order, m.dvi, m.force, left);
            && Given(r, m, base)
            && forall k {:trigger r.steps[k]} | 0 <= k < |m.paths| ::
                 Kept(state.steps[k], r.steps[k], m.order, m.dvi, m.paths[k], base)
    decreases left
  {
    hide Motion.Valid, TimesOn, AxisGiven, Kept, Pass;
    m.Degrees();
    var next, r := Pass(state, m.order, m.dvi, m.force), Passes(state, m.order, m.dvi, m.force, left);
    PassKeeps(state, m, base);
    if left > 1 {
      PassesKeep(next, m, base, left - 1);
    } else {
      assert Passes(next, m.order, m.dvi, m.force, 0) == next;
    }
    forall k | 0 <= k < |m.paths| ensures Kept(state.steps[k], r.steps[k], m.order, m.dvi, m.paths[k], base) {
      AxisKept(state, m, base, k);
      if r != next {
        KeptTwice(state.steps[k], next.steps[k], r.steps[k], m.order, m.dvi, m.paths[k], base);
      }
    }
  }

  /** The preset completes the sums of given values exactly for an even order: the last step of an odd one keeps
      the sums it had. */
  lemma {:induction false} PresetCompletes(state: State, m: Motion, base: real)
    requires AllShaped(state, m.order) && m.Valid() && Given(state, m, base)
    ensures var n := m.order;
            On(Passes(state, n, m.dvi, m.force, PASSES), m, base) <==>
            n % 2 == 0 ||
            forall k | 0 <= k < |m.paths| :: SumsOn(state.steps[k][n], n, m.paths[k], base + n as real)
  {
    hide Motion.Valid, TimesOn, Passes, ValuesOn, SumsOn, AWeights, BWeights;
    m.Degrees();
    var n := m.order;
    PassesKeep(state, m, base, PASSES);
    var r := Passes(state, n, m.dvi, m.force, PASSES);
    forall k | 0 <= k < |m.paths|
      ensures AxisOn(r.steps[k], n, m.dvi, m.paths[k], base) <==>
              n % 2 == 0 || SumsOn(state.steps[k][n], n, m.paths[k], base + n as real)
    {
      AxisCompletes(state.steps[k], r.steps[k], n, m.dvi, m.paths[k], base);
    }
  }

  lemma {:induction false} AxisCompletes(before: Axis, after: Axis, order: nat, dvi: real, p: Vector, base: real)
    requires Shaped(before, order) && Shaped(after, order) && AxisGiven(after, order, dvi, p, base)
    requires Kept(before, after, order, dvi, p, base)
    ensures AxisOn(after, order, dvi, p, base) <==>
            order % 2 == 0 || SumsOn(before[order], order, p, base + order as real)
  {
    hide ValuesOn, AWeights, BWeights, FirstSum, SecondSum;
    assert StepKept(before[order], after[order], order, dvi, p, base, order);
    if order % 2 == 0 || SumsOn(before[order], order, p, base + order as real) {
      forall j | 0 <= j <= order ensures SumsOn(after[j], order, p, base + j as real) {
        assert StepKept(before[j], after[j], order, dvi, p, base, j);
      }
    } else {
      assert !SumsOn(after[order], order, p, base + order as real);
    }
  }

  /** A whole run: given values, preset and extrapolated any number of steps, stay on the paths. */
  lemma {:induction false} RunIsExact(state: State, m: Motion, base: real, n: nat)
    requires AllShaped(state, m.order) && m.Valid() && Given(state, m, base) && m.order % 2 == 0
    ensures m.dvi != 0.0
    ensures var start := Passes(state, m.order, m.dvi, m.force, PASSES);
            On(Chunks(start, m.order, m.dvi, m.force, n), m, base + n as real)
  {
    hide Given, On, Chunks, Passes, Motion.Valid;
    m.Degrees();
    PresetCompletes(state, m, base);
    ExtrapolationIsExact(Passes(state, m.order, m.dvi, m.force, PASSES), m, base, n);
  }
}
