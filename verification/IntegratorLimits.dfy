/** Where an extrapolation ends, and when a preset is not enough. */
module IntegratorLimits {
  import opened Vectors
  import opened Polynomials
  import opened Derivatives
  import opened Series
  import opened GaussJackson
  import opened Exactness
  import opened IntegratorSums
  import opened IntegratorSpec
  import opened IntegratorProofs

  // ---------- the target ----------

  function Size(x: real): real
  {
    if x < 0.0 then -x else x
  }

  lemma {:induction false} NonnegativeProduct(u: real, v: real)
    requires u >= 0.0 && v >= 0.0
    ensures u * v >= 0.0
  {
  }

  lemma {:induction false} RatioSize(u: real, k: real, d: real)
    requires d == u * k && -0.5 <= u <= 0.5
    ensures 2.0 * Size(d) <= Size(k)
  {
    NonnegativeProduct(0.5 - u, Size(k));
    NonnegativeProduct(u + 0.5, Size(k));
  }

  /** A distance of which less than half a step lies behind is covered to the nearest step, and no other. */
  lemma {:induction false} NearestStep(distance: real, dvi: real)
    requires dvi != 0.0
    ensures var n := ChunkCount(distance, dvi);
            if distance / dvi >= -0.5 then 2.0 * Size(distance - n as real * dvi) <= Size(dvi) else n == 0
  {
    var n := ChunkCount(distance, dvi);
    var u := distance / dvi;
    if u >= -0.5 {
      assert n == (0.5 + u).Floor;
      Quotient(distance, dvi);
      Remainder(distance, dvi, u, n as real);
      RatioSize(u - n as real, dvi, distance - n as real * dvi);
    }
  }

  lemma {:induction false} Remainder(d: real, k: real, u: real, n: real)
    requires k * u == d
    ensures d - n * k == (u - n) * k
  {
  }

  lemma {:induction false} StepsLater(m: Motion, x: real, n: real)
    ensures m.TimeAt(x + n) == m.TimeAt(x) + n * m.dvi
  {
  }

  /** An extrapolation ends with the middle step at the step nearest to the target, on the paths. */
  lemma {:induction false} TargetReached(state: State, m: Motion, base: real, target: real)
    requires AllShaped(state, m.order) && m.Valid() && On(state, m, base)
    requires (target - state.vi[m.order / 2]) / m.dvi >= -0.5
    ensures m.dvi != 0.0
    ensures var n := ChunkCount(target - state.vi[m.order / 2], m.dvi);
            var r := Chunks(state, m.order, m.dvi, m.force, n);
            On(r, m, base + n as real) && 2.0 * Size(target - r.vi[m.order / 2]) <= Size(m.dvi)
  {
    hide Motion.Valid, Motion.TimeAt, Chunks, On, ChunkCount, Size;
    m.Degrees();
    var half := m.order / 2;
    var n := ChunkCount(target - state.vi[half], m.dvi);
    ExtrapolationIsExact(state, m, base, n);
    StepsLater(m, base + half as real, n as real);
    var r := Chunks(state, m.order, m.dvi, m.force, n);
    MiddleTime(state, m, base);
    MiddleTime(r, m, base + n as real);
    assert base + n as real + half as real == base + half as real + n as real;
    Nearest(target, state.vi[half], r.vi[half], m.dvi);
  }

  lemma {:induction false} MiddleTime(state: State, m: Motion, base: real)
    requires AllShaped(state, m.order) && On(state, m, base)
    ensures state.vi[m.order / 2] == m.TimeAt(base + (m.order / 2) as real)
  {
    hide Motion.TimeAt, AxisOn;
  }

  lemma {:induction false} Nearest(target: real, from: real, to: real, dvi: real)
    requires dvi != 0.0 && (target - from) / dvi >= -0.5
    requires to == from + ChunkCount(target - from, dvi) as real * dvi
    ensures 2.0 * Size(target - to) <= Size(dvi)
  {
    hide ChunkCount;
    NearestStep(target - from, dvi);
  }

  // ---------- odd orders ----------

  lemma {:induction false} UniformSums(order: nat, x: real)
    ensures FirstSum(order, [0.0, 1.0], x) == 1.0
  {
    hide CTable, Dot, Nabla;
    var p: Vector := [0.0, 1.0];
    Twice(p);
    assert Derivative(p) == [Scaled(1, 1.0)] == [1.0];
    assert Derivative([1.0]) == [];
    EvalNil(x);
    EvalCons([1.0], x);
    assert [1.0][1..] == [];
    var d := Nablas([], 0, order + 1, x);
    forall i | 0 <= i <= order ensures d[i] == 0.0 {
      NablaNil(i, x);
    }
    DotZero(CTable(order + 3)[1..order + 2], d);
  }

  /** A new instance of odd order, given a uniform motion, is not complete after its preset: the sums of the last
      step are still 0. */
  lemma {:induction false} OddOrderIsIncomplete(state: State, m: Motion, base: real)
    requires AllShaped(state, m.order) && m.Valid() && Given(state, m, base)
    requires m.order % 2 == 1 && m.paths == [[0.0, 1.0]] && state.steps[0][m.order].s == 0.0
    ensures m.dvi != 0.0
    ensures !On(Passes(state, m.order, m.dvi, m.force, PASSES), m, base)
  {
    hide Motion.Valid, AxisGiven, TimesOn, On, Passes, FirstSum, SecondSum;
    m.Degrees();
    PresetCompletes(state, m, base);
    UniformSums(m.order, base + m.order as real);
    assert !SumsOn(state.steps[0][m.order], m.order, m.paths[0], base + m.order as real);
  }

  /** Along a line without a force. */
  const NO_FORCE: Force := (t: real, v: Vector) => seq(|v|, i => 0.0)

  function Gliding(order: nat): (m: Motion)
    ensures m.order == order && m.paths == [[0.0, 1.0]]
  {
    Motion(order, 1.0, NO_FORCE, 0.0, [[0.0, 1.0]])
  }

  lemma {:induction false} GlidingIsValid(order: nat)
    ensures Gliding(order).Valid()
  {
    hide Eval;
    var m := Gliding(order);
    Twice([0.0, 1.0]);
    assert Derivative([0.0, 1.0]) == [1.0];
    assert Derivative([1.0]) == [];
    forall x: real ensures m.force(m.TimeAt(x), m.PositionsAt(x)) == m.ForcesAt(x) {
      EvalNil(x);
      assert m.ForcesAt(x) == [0.0];
    }
  }

  /** The preset starts every new instance that is filled with values on paths. */
  ghost predicate StartsEveryNew(order: nat)
  {
    forall m: Motion, base | m.order == order && m.Valid() :: StartsNew(m, base)
  }

  ghost predicate StartsNew(m: Motion, base: real)
    requires m.Valid()
  {
    On(Passes(FilledTo(m, base, m.order + 1), m.order, m.dvi, m.force, PASSES), m, base)
  }

  /** It does so exactly for even orders. */
  lemma {:induction false} NewInstanceStarts(order: nat)
    ensures StartsEveryNew(order) <==> order % 2 == 0
  {
    hide Motion.Valid, Given, On, Passes, FilledTo, Gliding;
    if order % 2 == 0 {
      forall m: Motion, base | m.order == order && m.Valid() ensures StartsNew(m, base) {
        m.Degrees();
        FilledIsGiven(m, base);
        PresetCompletes(FilledTo(m, base, order + 1), m, base);
      }
    } else {
      var m := Gliding(order);
      GlidingIsValid(order);
      FilledIsGiven(m, 0.0);
      OddOrderIsIncomplete(FilledTo(m, 0.0, order + 1), m, 0.0);
      assert !StartsNew(m, 0.0);
    }
  }

  // ---------- a preset after an extrapolation ----------

  function Least(a: nat, b: nat): nat
  {
    if a <= b then a else b
  }

  /** The weights move down with their steps: only the last step keeps its own. */
  lemma {:induction false} WeightsMove(state: State, order: nat, dvi: real, force: Force, n: nat, k: nat, j: nat)
    requires AllShaped(state, order) && k < |state.steps| && j < order + 2
    ensures var before, after := state.steps[k], Chunks(state, order, dvi, force, n).steps[k];
            && after[j].a == before[Least(j + n, order + 1)].a
            && after[j].b == before[Least(j + n, order + 1)].b
    decreases n
  {
    hide Chunk;
    if n > 0 {
      WeightsMove(state, order, dvi, force, n - 1, k, Least(j + 1, order + 1));
      ChunkMoves(Chunks(state, order, dvi, force, n - 1), order, dvi, force, k, j);
      assert Least(Least(j + 1, order + 1) + (n - 1), order + 1) == Least(j + n, order + 1);
    }
  }

  lemma {:induction false} ChunkMoves(state: State, order: nat, dvi: real, force: Force, k: nat, j: nat)
    requires AllShaped(state, order) && k < |state.steps| && j < order + 2
    ensures var before, after := state.steps[k], Chunk(state, order, dvi, force).steps[k];
            && after[j].a == before[Least(j + 1, order + 1)].a
            && after[j].b == before[Least(j + 1, order + 1)].b
  {
    hide Predicted;
  }

  /** The force that grows with time, and the path of a body that it moves from rest. */
  const GROWING: Force := (t: real, v: Vector) => seq(|v|, i => t)
  const CUBIC: Vector := [0.0, 0.0, 0.0, 1.0 / 6.0]

  function Growing(order: nat): Motion
  {
    Motion(order, 1.0, GROWING, 0.0, [CUBIC])
  }

  lemma {:induction false} CubicDerivative(x: real)
    ensures DerivativeN(CUBIC, 2) == [0.0, 1.0] && Eval([0.0, 1.0], x) == x
  {
    Twice(CUBIC);
    assert Derivative(CUBIC) == [0.0, 0.0, 0.5];
    assert Derivative([0.0, 0.0, 0.5]) == [0.0, 1.0];
    EvalCons([0.0, 1.0], x);
    EvalCons([1.0], x);
    EvalNil(x);
    assert [0.0, 1.0][1..] == [1.0] && [1.0][1..] == [];
  }

  lemma {:induction false} GrowingIsValid(order: nat)
    requires order >= 1
    ensures Growing(order).Valid()
  {
    hide DerivativeN, Eval;
    var m := Growing(order);
    forall x: real ensures m.force(m.TimeAt(x), m.PositionsAt(x)) == m.ForcesAt(x) {
      CubicDerivative(x);
      assert m.ForcesAt(x) == [x];
    }
  }

  /** q[2] and the sum of a straight line by row `order` of alpha. */
  lemma {:induction false} ThirdTerms(n: nat)
    requires n >= 3
    ensures CTable(n)[2] == -1.0 / 12.0 && QTable(n)[2] == 1.0 / 12.0
  {
    hide Product, CTable, QTable;
    var c, h := CTable(n), Harmonic(n);
    FirstTerms(n);
    CTermAt(n, 2);
    ProductThird(c, h);
    QTermAt(n, 2);
    ProductThird(c, c);
  }

  lemma {:induction false} ProductThird(a: Vector, b: Vector)
    requires |a| == |b| >= 3
    ensures Product(a, b)[2] == a[0] * b[2] + a[1] * b[1] + a[2] * b[0]
  {
    hide Product;
    ProductIndex(a, b, 2);
    ProductIndex(a[1..], b, 1);
    ProductIndex(a[1..][1..], b, 0);
  }

  lemma {:induction false} LineSum(order: nat, x: real)
    requires order >= 1
    ensures PositionSum(order, [0.0, 1.0], x) == x / 12.0 + QTable(order + 3)[3]
  {
    hide QTable, Dot, Nabla, Eval;
    var f: Vector := [0.0, 1.0];
    var q, d := QTable(order + 3)[2..], Nablas(f, 0, order + 1, x);
    ThirdTerms(order + 3);
    NablaNext(f, 0, x);
    NablaNext(f, 0, x - 1.0);
    CubicDerivative(x);
    CubicDerivative(x - 1.0);
    DotHead(q, d);
    DotHead(q[1..], d[1..]);
    forall i | 0 <= i < order - 1 ensures d[1..][1..][i] == 0.0 {
      NablaVanishes(f, i + 2, x);
    }
    DotZero(q[1..][1..], d[1..][1..]);
  }

  /** One axis under the growing force, its middle step at x0 with the weights a. */
  ghost predicate Timed(state: State, order: nat, x0: real, a: Vector)
    requires AllShaped(state, order)
  {
    && |state.steps| == 1
    && (forall j | 0 <= j <= order :: state.steps[0][j].vd2 == state.vi[j])
    && state.steps[0][order / 2].vd0 == x0 && state.steps[0][order / 2].a == a
  }

  /** The force is the time, whatever the position. */
  ghost predicate Timely(force: Force)
  {
    forall t: real, v: Vector, i | 0 <= i < |v| :: force(t, v)[i] == t
  }

  lemma {:induction false} StepStaysTimed(state: State, order: nat, force: Force, x0: real, a: Vector, j: nat)
    requires AllShaped(state, order) && Timely(force) && Timed(state, order, x0, a) && j <= order
    ensures var after := Pass(state, order, 1.0, force).steps[0];
            && after[j].vd2 == state.vi[j]
            && (j == order / 2 ==>
                  && after[j].vd0 == x0 && after[j].a == a && |a| == order + 1
                  && after[j].ss == x0 - Dot(a, state.vi[..order + 1]))
  {
    hide Dot, Pass, FirstSumAt, SecondSumAt, Positions;
    var axis := state.steps[0];
    PassStep(state, order, 1.0, force, 0, j);
    if j == order / 2 {
      SecondSumMiddle(axis, order, 1.0);
      assert SecondDerivatives(axis, order) == state.vi[..order + 1];
    }
  }

  lemma {:induction false} StaysTimed(state: State, order: nat, force: Force, x0: real, a: Vector)
    requires AllShaped(state, order) && Timely(force) && Timed(state, order, x0, a)
    ensures var next := Pass(state, order, 1.0, force);
            && Timed(next, order, x0, a) && |a| == order + 1
            && next.steps[0][order / 2].ss == x0 - Dot(a, state.vi[..order + 1])
  {
    hide Dot, Pass, Timely;
    var next := Pass(state, order, 1.0, force);
    forall j | 0 <= j <= order ensures next.steps[0][j].vd2 == next.vi[j] {
      StepStaysTimed(state, order, force, x0, a, j);
    }
    StepStaysTimed(state, order, force, x0, a, order / 2);
  }

  lemma {:induction false} TimedPasses(state: State, order: nat, force: Force, x0: real, a: Vector, left: nat)
    requires AllShaped(state, order) && Timely(force) && Timed(state, order, x0, a) && left > 0
    ensures |a| == order + 1
    ensures var r := Passes(state, order, 1.0, force, left);
            |r.steps| == 1 && r.steps[0][order / 2].ss == x0 - Dot(a, state.vi[..order + 1])
    decreases left
  {
    hide Dot, Pass, Settled, Timely;
    StaysTimed(state, order, force, x0, a);
    var next := Pass(state, order, 1.0, force);
    if left > 1 {
      TimedPasses(next, order, force, x0, a, left - 1);
    } else {
      assert Passes(next, order, 1.0, force, 0) == next;
    }
  }

  /** Preset and then extrapolated n steps. */
  function Extrapolated(state: State, order: nat, dvi: real, force: Force, n: nat): (r: State)
    requires AllShaped(state, order) && dvi != 0.0
    ensures AllShaped(r, order) && |r.steps| == |state.steps|
  {
    Chunks(Passes(state, order, dvi, force, PASSES), order, dvi, force, n)
  }

  /** The same, and preset once more. */
  function PresetAgain(state: State, order: nat, dvi: real, force: Force, n: nat): (r: State)
    requires AllShaped(state, order) && dvi != 0.0
    ensures AllShaped(r, order) && |r.steps| == |state.steps|
  {
    Passes(Extrapolated(state, order, dvi, force, n), order, dvi, force, PASSES)
  }

  /** The second preset sets the sums of the paths. */
  ghost predicate StartsAgain(state: State, m: Motion, base: real, n: nat)
    requires AllShaped(state, m.order) && m.Valid()
  {
    On(PresetAgain(state, m.order, m.dvi, m.force, n), m, base + n as real)
  }

  ghost predicate AlwaysStartsAgain(order: nat, n: nat)
  {
    forall m: Motion, state, base |
      m.order == order && m.Valid() && AllShaped(state, order) && Given(state, m, base) ::
      StartsAgain(state, m, base, n)
  }

  lemma {:induction false} StartsAgainAtOnce(state: State, m: Motion, base: real)
    requires AllShaped(state, m.order) && m.Valid() && Given(state, m, base) && m.order % 2 == 0
    ensures StartsAgain(state, m, base, 0)
  {
    hide Passes, Motion.Valid, Given, On;
    m.Degrees();
    PassesKeep(state, m, base, PASSES);
    PresetCompletes(Passes(state, m.order, m.dvi, m.force, PASSES), m, base);
    assert base + 0 as real == base;
  }

  /** A body moved by a force that is the time. */
  ghost predicate GrowingMotion(m: Motion)
  {
    && m.Valid() && m.order >= 2 && m.order % 2 == 0 && Timely(m.force)
    && m.dvi == 1.0 && m.origin == 0.0 && m.paths == [CUBIC]
  }

  lemma {:induction false} OnIsTimed(state: State, m: Motion, base: real)
    requires GrowingMotion(m) && AllShaped(state, m.order) && On(state, m, base)
    ensures |state.steps| == 1
    ensures Timed(state, m.order, Eval(CUBIC, base + (m.order / 2) as real), state.steps[0][m.order / 2].a)
    ensures state.vi[..m.order + 1] == Samples([0.0, 1.0], base, m.order + 1)
  {
    hide Eval, Derivative, DerivativeN, SumsOn, AWeights, BWeights, Motion.Valid, Timely;
    forall j | 0 <= j <= m.order
      ensures state.steps[0][j].vd2 == state.vi[j] == Samples([0.0, 1.0], base, m.order + 1)[j]
    {
      CubicDerivative(base + j as real);
      assert ValuesOn(state.steps[0][j], CUBIC, 1.0, base + j as real);
    }
    assert ValuesOn(state.steps[0][m.order / 2], CUBIC, 1.0, base + (m.order / 2) as real);
  }

  lemma {:induction false} WeightsGiven(axis: Axis, order: nat, dvi: real, p: Vector, base: real, j: nat)
    requires Shaped(axis, order) && AxisGiven(axis, order, dvi, p, base) && j <= order + 1
    ensures axis[j].a == AWeights(order, j) && axis[j].b == BWeights(order, j)
  {
    hide AWeights, BWeights, ValuesOn;
  }

  lemma {:induction false} WeightsAfter(state: State, m: Motion, base: real, n: nat)
    requires AllShaped(state, m.order) && m.Valid() && Given(state, m, base) && |m.paths| == 1
    ensures m.dvi != 0.0
    ensures Extrapolated(state, m.order, m.dvi, m.force, n).steps[0][m.order / 2].a ==
            AWeights(m.order, Least(m.order / 2 + n, m.order + 1))
  {
    hide Motion.Valid, Passes, Chunks, AWeights, BWeights, AxisGiven, TimesOn, Kept;
    m.Degrees();
    PassesKeep(state, m, base, PASSES);
    var start := Passes(state, m.order, m.dvi, m.force, PASSES);
    WeightsMove(start, m.order, m.dvi, m.force, n, 0, m.order / 2);
    WeightsGiven(start.steps[0], m.order, m.dvi, m.paths[0], base, Least(m.order / 2 + n, m.order + 1));
  }

  /** The sum ss of the middle step after the second preset. */
  lemma {:induction false} SumAfter(state: State, m: Motion, n: nat)
    requires GrowingMotion(m) && AllShaped(state, m.order) && Given(state, m, 0.0)
    ensures var again := PresetAgain(state, m.order, 1.0, m.force, n);
            var half := m.order / 2;
            && |again.steps| == 1
            && again.steps[0][half].ss ==
               Eval(CUBIC, n as real + half as real) -
               PositionSum(m.order, [0.0, 1.0], n as real + Least(half + n, m.order + 1) as real)
  {
    hide On, Chunks, Passes, Eval, PositionSum, AWeights, Dot, Timed, Motion.Valid, Given, Timely, Samples;
    var half, row := m.order / 2, Least(m.order / 2 + n, m.order + 1);
    var moved := Extrapolated(state, m.order, 1.0, m.force, n);
    RunIsExact(state, m, 0.0, n);
    assert 0.0 + n as real == n as real;
    OnIsTimed(moved, m, n as real);
    WeightsAfter(state, m, 0.0, n);
    TimedPasses(moved, m.order, m.force, Eval(CUBIC, n as real + half as real), AWeights(m.order, row), PASSES);
    WeighPosition(m.order, [0.0, 1.0], n as real, row);
  }

  lemma {:induction false} MiddleIsOn(state: State, m: Motion, base: real)
    requires AllShaped(state, m.order) && On(state, m, base) && |m.paths| == 1
    ensures state.steps[0][m.order / 2].ss == SecondSum(m.order, m.paths[0], base + (m.order / 2) as real)
  {
    hide ValuesOn, SecondSum, FirstSum, AWeights, BWeights;
    assert SumsOn(state.steps[0][m.order / 2], m.order, m.paths[0], base + (m.order / 2) as real);
  }

  lemma {:induction false} StartsWrong(state: State, m: Motion, n: nat)
    requires GrowingMotion(m) && AllShaped(state, m.order) && Given(state, m, 0.0) && n > 0
    ensures !StartsAgain(state, m, 0.0, n)
  {
    hide On, PresetAgain, Eval, PositionSum, Motion.Valid, Given, QTable, DerivativeN, Timely;
    var half := m.order / 2;
    var x, row := n as real + half as real, Least(half + n, m.order + 1);
    var again := PresetAgain(state, m.order, 1.0, m.force, n);
    SumAfter(state, m, n);
    LineSum(m.order, n as real + row as real);
    LineSum(m.order, x);
    CubicDerivative(x);
    assert 0.0 + n as real == n as real;
    if On(again, m, n as real) {
      MiddleIsOn(again, m, n as real);
      assert false;
    }
  }

  // ---------- the same for order 0 ----------

  /** A body moved by a constant force. */
  ghost predicate ConstantMotion(m: Motion)
  {
    m.Valid() && m.order == 0 && m.dvi == 1.0 && m.paths == [[0.0, 0.0, 0.5]]
  }

  lemma {:induction false} SquareDerivative(x: real)
    ensures DerivativeN([0.0, 0.0, 0.5], 2) == [1.0] && Eval([1.0], x) == 1.0
    ensures |DerivativeN([0.0, 0.0, 0.5], 2)| == 1
  {
    Twice([0.0, 0.0, 0.5]);
    assert Derivative([0.0, 0.0, 0.5]) == [0.0, 1.0];
    assert Derivative([0.0, 1.0]) == [1.0];
    EvalCons([1.0], x);
    EvalNil(x);
    assert [1.0][1..] == [];
  }

  lemma {:induction false} ConstantSum(x: real)
    ensures VelocitySum(0, [1.0], x) == -0.5
  {
    hide CTable, Dot, Nabla, Eval;
    FirstTerms(3);
    SquareDerivative(x);
    NablaNext([1.0], 0, x);
    var c, d := CTable(3)[1..2], Nablas([1.0], 0, 1, x);
    DotHead(c, d);
    assert c[1..] == [] == d[1..];
    NoDot();
  }

  lemma {:induction false} SinglePass(state: State, force: Force, left: nat)
    requires AllShaped(state, 0) && |state.steps| == 1 && left > 0
    ensures var step := state.steps[0][0];
            Passes(state, 0, 1.0, force, left).steps[0][0].s ==
            step.vd1 / 1.0 - Dot(step.b, SecondDerivatives(state.steps[0], 0))
    decreases left
  {
    hide Dot, Pass, Positions, SecondSumAt;
    var next := Pass(state, 0, 1.0, force);
    PassStep(state, 0, 1.0, force, 0, 0);
    assert SecondDerivatives(next.steps[0], 0) == SecondDerivatives(state.steps[0], 0);
    if left > 1 {
      SinglePass(next, force, left - 1);
    } else {
      assert Passes(next, 0, 1.0, force, 0) == next;
    }
  }

  lemma {:induction false} SingleWeights(state: State, m: Motion, base: real, n: nat)
    requires AllShaped(state, 0) && ConstantMotion(m) && Given(state, m, base) && n > 0
    ensures Extrapolated(state, 0, 1.0, m.force, n).steps[0][0].b == BWeights(0, 1)
  {
    hide Motion.Valid, Passes, Chunks, AWeights, BWeights, AxisGiven, TimesOn, Kept;
    PassesKeep(state, m, base, PASSES);
    var start := Passes(state, 0, 1.0, m.force, PASSES);
    WeightsMove(start, 0, 1.0, m.force, n, 0, 0);
    WeightsGiven(start.steps[0], 0, 1.0, m.paths[0], base, 1);
  }

  lemma {:induction false} SingleIsOn(state: State, m: Motion, base: real)
    requires AllShaped(state, 0) && ConstantMotion(m) && On(state, m, base)
    ensures |state.steps| == 1
    ensures state.steps[0][0].s == FirstSum(0, m.paths[0], base)
    ensures state.steps[0][0].vd1 == Eval(Derivative(m.paths[0]), base)
    ensures SecondDerivatives(state.steps[0], 0) == Samples([1.0], base, 1)
  {
    hide Motion.Valid, Eval, Derivative, DerivativeN, FirstSum, SecondSum, AWeights, BWeights;
    assert base + 0 as real == base;
    SquareDerivative(base);
    assert ValuesOn(state.steps[0][0], m.paths[0], 1.0, base + 0 as real);
    assert SumsOn(state.steps[0][0], 0, m.paths[0], base + 0 as real);
  }

  lemma {:induction false} SingleStartsWrong(state: State, m: Motion, base: real, n: nat)
    requires AllShaped(state, 0) && ConstantMotion(m) && Given(state, m, base) && n > 0
    ensures !StartsAgain(state, m, base, n)
  {
    hide On, Passes, Chunks, Eval, VelocitySum, Motion.Valid, Given, Derivative, DerivativeN, BWeights, Dot, Samples;
    var p: Vector := [0.0, 0.0, 0.5];
    var x := base + n as real;
    RunIsExact(state, m, base, n);
    var moved := Extrapolated(state, 0, 1.0, m.force, n);
    SingleIsOn(moved, m, x);
    SingleWeights(state, m, base, n);
    SinglePass(moved, m.force, PASSES);
    SquareDerivative(x);
    SquareDerivative(x + 1.0);
    WeighVelocity(0, [1.0], x, 1);
    ConstantSum(x);
    ConstantSum(x + 1.0);
    var again := PresetAgain(state, 0, 1.0, m.force, n);
    assert again.steps[0][0].s == Eval(Derivative(p), x) - 0.5;
    assert FirstSum(0, p, x) == Eval(Derivative(p), x);
    if On(again, m, x) {
      SingleIsOn(again, m, x);
      assert false;
    }
  }

  const UNIFORM: Force := (t: real, v: Vector) => seq(|v|, i => 1.0)

  function Uniform(): Motion
  {
    Motion(0, 1.0, UNIFORM, 0.0, [[0.0, 0.0, 0.5]])
  }

  lemma {:induction false} UniformIsConstant()
    ensures ConstantMotion(Uniform())
  {
    hide DerivativeN, Eval;
    var m := Uniform();
    SquareDerivative(0.0);
    forall x: real ensures m.force(m.TimeAt(x), m.PositionsAt(x)) == m.ForcesAt(x) {
      SquareDerivative(x);
      assert m.ForcesAt(x) == [1.0];
    }
  }

  /** A second preset is sure to set the sums of the paths, whatever they are, only if no step was extrapolated. */
  lemma {:induction false} PresetOnlyAtTheStart(order: nat, n: nat)
    requires order % 2 == 0
    ensures AlwaysStartsAgain(order, n) <==> n == 0
  {
    hide StartsAgain, Given, Motion.Valid, FilledTo, Growing, Uniform;
    if n == 0 {
      forall m: Motion, state, base | m.order == order && m.Valid() && AllShaped(state, order) && Given(state, m, base)
        ensures StartsAgain(state, m, base, 0)
      {
        StartsAgainAtOnce(state, m, base);
      }
    } else if order == 0 {
      var m := Uniform();
      UniformIsConstant();
      FilledIsGiven(m, 0.0);
      SingleStartsWrong(FilledTo(m, 0.0, 1), m, 0.0, n);
    } else {
      var m := Growing(order);
      GrowingIsGrowing(order);
      FilledIsGiven(m, 0.0);
      StartsWrong(FilledTo(m, 0.0, order + 1), m, n);
    }
  }

  lemma {:induction false} GrowingIsGrowing(order: nat)
    requires order >= 2 && order % 2 == 0
    ensures GrowingMotion(Growing(order)) && Growing(order).order == order
  {
    hide Motion.Valid;
    GrowingIsValid(order);
  }
}
