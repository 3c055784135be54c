/** What the preset makes of starting values that are right only at the middle step. */
module IntegratorCorrection {
  import opened Vectors
  import opened Polynomials
  import opened Derivatives
  import opened IntegratorSums
  import opened IntegratorSpec
  import opened IntegratorProofs
  import opened IntegratorLimits

  /** The force does not depend on the positions. */
  ghost predicate TimeOnly(force: Force)
  {
    forall t: real, v: Vector, w: Vector | |v| == |w| :: force(t, v) == force(t, w)
  }

  lemma {:induction false} SameForce(force: Force, t: real, v: Vector, w: Vector)
    requires TimeOnly(force) && |v| == |w|
    ensures force(t, v) == force(t, w)
  {
  }

  ghost predicate AxisMiddle(axis: Axis, order: nat, dvi: real, p: Vector, base: real)
    requires Shaped(axis, order)
  {
    OwnWeights(axis, order) && ValuesOn(axis[order / 2], p, dvi, base + (order / 2) as real)
  }

  /** The middle step lies on the paths; nothing is said of the other values. */
  ghost predicate MiddleGiven(state: State, m: Motion, base: real)
    requires AllShaped(state, m.order)
  {
    && |state.steps| == |m.paths| && TimesOn(state.vi, m, base)
    && forall k {:trigger state.steps[k]} | 0 <= k < |m.paths| ::
         AxisMiddle(state.steps[k], m.order, m.dvi, m.paths[k], base)
  }

  /** The second derivative that step j of axis k should have. */
  function Right(m: Motion, base: real, k: nat, j: nat): real
    requires k < |m.paths|
  {
    Eval(DerivativeN(m.paths[k], 2), base + j as real)
  }

  ghost predicate AxisForced(axis: Axis, m: Motion, base: real, k: nat)
    requires Shaped(axis, m.order) && k < |m.paths|
  {
    forall j | 0 <= j <= m.order :: axis[j].vd2 == Right(m, base, k, j)
  }

  /** All second derivatives are those of the paths. */
  ghost predicate AllForced(state: State, m: Motion, base: real)
    requires AllShaped(state, m.order) && |state.steps| == |m.paths|
  {
    forall k {:trigger state.steps[k]} | 0 <= k < |m.paths| :: AxisForced(state.steps[k], m, base, k)
  }

  /** The last step lies on the path with its sums. Of an even order the passes see to that. */
  ghost predicate AxisLast(axis: Axis, m: Motion, base: real, k: nat)
    requires Shaped(axis, m.order) && k < |m.paths|
  {
    m.order % 2 == 1 ==>
      && ValuesOn(axis[m.order], m.paths[k], m.dvi, base + m.order as real)
      && SumsOn(axis[m.order], m.order, m.paths[k], base + m.order as real)
  }

  ghost predicate LastGiven(state: State, m: Motion, base: real)
    requires AllShaped(state, m.order) && |state.steps| == |m.paths|
  {
    forall k {:trigger state.steps[k]} | 0 <= k < |m.paths| :: AxisLast(state.steps[k], m, base, k)
  }

  /** The second derivative last corrected was wrong by more than the tolerance in one of the axes. */
  ghost predicate LastFarOff(state: State, m: Motion, base: real)
    requires AllShaped(state, m.order) && |state.steps| == |m.paths|
  {
    m.order >= 2 &&
    exists k :: 0 <= k < |m.paths| &&
      !Near(state.steps[k][2 * (m.order / 2)].vd2, Right(m, base, k, 2 * (m.order / 2)))
  }

  // ---------- one pass ----------

  /** What a pass does to step j: the second derivative is right after it, but the middle step and, of an odd
      order, the last one keep their values. */
  ghost predicate StepPassed(before: GjStep, after: GjStep, m: Motion, base: real, k: nat, j: nat)
    requires k < |m.paths|
  {
    && after.a == before.a && after.b == before.b
    && (Corrected(m.order, j) ==> after.vd2 == Right(m, base, k, j))
    && (!Corrected(m.order, j) ==> after.vd0 == before.vd0 && after.vd1 == before.vd1 && after.vd2 == before.vd2)
    && (j > 2 * (m.order / 2) ==> after.s == before.s && after.ss == before.ss)
  }

  ghost predicate AxisPassed(before: Axis, after: Axis, m: Motion, base: real, k: nat)
    requires Shaped(before, m.order) && Shaped(after, m.order) && k < |m.paths|
  {
    forall j | 0 <= j <= m.order + 1 :: StepPassed(before[j], after[j], m, base, k, j)
  }

  lemma {:induction false} StepIsPassed(state: State, m: Motion, base: real, k: nat, j: nat)
    requires AllShaped(state, m.order) && m.Valid() && TimeOnly(m.force) && MiddleGiven(state, m, base)
    requires k < |m.paths| && j <= m.order + 1
    ensures m.dvi != 0.0
    ensures StepPassed(state.steps[k][j], Pass(state, m.order, m.dvi, m.force).steps[k][j], m, base, k, j)
  {
    hide Motion.Valid, Motion.TimeAt, Eval, DerivativeN, Pass, Positions, FirstSumAt, SecondSumAt, Dot, AxisMiddle,
         PlacedSteps, SummedAxes, TimeOnly, Motion.PositionsAt;
    m.Degrees();
    PassStep(state, m.order, m.dvi, m.force, k, j);
    if Corrected(m.order, j) {
      var placed := PlacedSteps(SummedAxes(state.steps, m.order, m.dvi), m.order, m.dvi, j);
      SameForce(m.force, state.vi[j], Positions(placed), m.PositionsAt(base + j as real));
      m.AtStep(base + j as real);
    }
  }

  lemma {:induction false} AxisIsPassed(state: State, m: Motion, base: real, k: nat)
    requires AllShaped(state, m.order) && m.Valid() && TimeOnly(m.force) && MiddleGiven(state, m, base)
    requires k < |m.paths|
    ensures m.dvi != 0.0
    ensures AxisPassed(state.steps[k], Pass(state, m.order, m.dvi, m.force).steps[k], m, base, k)
  {
    hide Motion.Valid, Pass, TimeOnly, StepPassed, AxisMiddle, TimesOn;
    m.Degrees();
    forall j: nat | j <= m.order + 1
      ensures StepPassed(state.steps[k][j], Pass(state, m.order, m.dvi, m.force).steps[k][j], m, base, k, j)
    {
      StepIsPassed(state, m, base, k, j);
    }
  }

  lemma {:induction false} PassedKeeps(before: Axis, after: Axis, m: Motion, base: real, k: nat)
    requires Shaped(before, m.order) && Shaped(after, m.order) && k < |m.paths| && AxisPassed(before, after, m, base, k)
    ensures AxisMiddle(before, m.order, m.dvi, m.paths[k], base) ==> AxisMiddle(after, m.order, m.dvi, m.paths[k], base)
    ensures AxisLast(before, m, base, k) <==> AxisLast(after, m, base, k)
  {
    hide AWeights, BWeights, PositionOn, VelocityOn, DerivativeN, FirstSum, SecondSum, Eval;
    var n := m.order;
    assert StepPassed(before[n / 2], after[n / 2], m, base, k, n / 2);
    assert StepPassed(before[n], after[n], m, base, k, n);
  }

  /** After a pass all second derivatives are right, if the last one of an odd order was. */
  lemma {:induction false} PassedForces(before: Axis, after: Axis, m: Motion, base: real, k: nat)
    requires Shaped(before, m.order) && Shaped(after, m.order) && k < |m.paths| && AxisPassed(before, after, m, base, k)
    requires AxisMiddle(before, m.order, m.dvi, m.paths[k], base)
    requires AxisLast(before, m, base, k)
    ensures AxisForced(after, m, base, k)
  {
    hide OwnWeights, PositionOn, VelocityOn, DerivativeN, SumsOn, Eval;
    var n := m.order;
    forall j | 0 <= j <= n ensures after[j].vd2 == Right(m, base, k, j) {
      assert StepPassed(before[j], after[j], m, base, k, j);
    }
  }

  lemma {:induction false} PassKeepsMiddle(state: State, m: Motion, base: real)
    requires AllShaped(state, m.order) && m.Valid() && TimeOnly(m.force) && MiddleGiven(state, m, base)
    ensures m.dvi != 0.0
    ensures var r := Pass(state, m.order, m.dvi, m.force);
      && MiddleGiven(r, m, base) && (LastGiven(state, m, base) <==> LastGiven(r, m, base))
      && (LastGiven(state, m, base) ==> AllForced(r, m, base))
  {
    hide Motion.Valid, TimesOn, TimeOnly, AxisMiddle, AxisLast, AxisForced, AxisPassed, Shaped;
    m.Degrees();
    var r := Pass(state, m.order, m.dvi, m.force);
    forall k | 0 <= k < |m.paths|
      ensures AxisMiddle(r.steps[k], m.order, m.dvi, m.paths[k], base)
      ensures AxisLast(state.steps[k], m, base, k) <==> AxisLast(r.steps[k], m, base, k)
      ensures AxisLast(state.steps[k], m, base, k) ==> AxisForced(r.steps[k], m, base, k)
    {
      AxisIsPassed(state, m, base, k);
      PassedKeeps(state.steps[k], r.steps[k], m, base, k);
      if AxisLast(state.steps[k], m, base, k) {
        PassedForces(state.steps[k], r.steps[k], m, base, k);
      }
    }
  }

  // ---------- the second pass ----------

  lemma {:induction false} SuppliedStep(state: State, m: Motion, base: real, k: nat, j: nat)
    requires AllShaped(state, m.order) && m.Valid() && TimeOnly(m.force) && MiddleGiven(state, m, base)
    requires k < |m.paths| && AxisForced(state.steps[k], m, base, k) && AxisLast(state.steps[k], m, base, k)
    requires j <= m.order
    ensures m.dvi != 0.0
    ensures var after := Pass(state, m.order, m.dvi, m.force).steps[k][j];
      && ValuesOn(after, m.paths[k], m.dvi, base + j as real)
      && SumsOn(after, m.order, m.paths[k], base + j as real)
  {
    hide Motion.Valid, Motion.TimeAt, Eval, DerivativeN, Pass, Positions, FirstSumAt, SecondSumAt, Dot, FirstSum,
         SecondSum, PlacedSteps, SummedAxes, TimeOnly, TimesOn, OwnWeights, PositionOn, VelocityOn, SummedStep;
    m.Degrees();
    var axis, p := state.steps[k], m.paths[k];
    assert AxisMiddle(axis, m.order, m.dvi, p, base);
    assert axis[j].vd2 == Right(m, base, k, j);
    PlacedOn(axis, m.order, m.dvi, p, base, j);
    PassStep(state, m.order, m.dvi, m.force, k, j);
    StepIsPassed(state, m, base, k, j);
  }

  lemma {:induction false} SuppliedAxis(state: State, m: Motion, base: real, k: nat)
    requires AllShaped(state, m.order) && m.Valid() && TimeOnly(m.force) && MiddleGiven(state, m, base)
    requires k < |m.paths| && AxisForced(state.steps[k], m, base, k) && AxisLast(state.steps[k], m, base, k)
    ensures m.dvi != 0.0
    ensures var after := Pass(state, m.order, m.dvi, m.force).steps[k];
      && AxisGiven(after, m.order, m.dvi, m.paths[k], base)
      && AxisOn(after, m.order, m.dvi, m.paths[k], base)
  {
    hide Motion.Valid, Pass, TimesOn, TimeOnly, ValuesOn, SumsOn, AxisForced, AxisLast, AWeights, BWeights;
    m.Degrees();
    var after := Pass(state, m.order, m.dvi, m.force).steps[k];
    forall j: nat | j <= m.order
      ensures ValuesOn(after[j], m.paths[k], m.dvi, base + j as real)
      ensures SumsOn(after[j], m.order, m.paths[k], base + j as real)
    {
      SuppliedStep(state, m, base, k, j);
    }
    AxisIsPassed(state, m, base, k);
    PassedKeeps(state.steps[k], after, m, base, k);
    assert AxisMiddle(state.steps[k], m.order, m.dvi, m.paths[k], base);
  }

  /** With all second derivatives right a pass puts everything on the paths. */
  lemma {:induction false} SuppliedPass(state: State, m: Motion, base: real)
    requires AllShaped(state, m.order) && m.Valid() && TimeOnly(m.force) && MiddleGiven(state, m, base)
    requires AllForced(state, m, base) && LastGiven(state, m, base)
    ensures m.dvi != 0.0
    ensures var r := Pass(state, m.order, m.dvi, m.force); Given(r, m, base) && On(r, m, base)
  {
    hide Motion.Valid, Pass, TimesOn, TimeOnly, AxisMiddle, AxisForced, AxisLast, AxisGiven, AxisOn, Shaped;
    m.Degrees();
    var r := Pass(state, m.order, m.dvi, m.force);
    forall k | 0 <= k < |m.paths|
      ensures AxisGiven(r.steps[k], m.order, m.dvi, m.paths[k], base)
      ensures AxisOn(r.steps[k], m.order, m.dvi, m.paths[k], base)
    {
      SuppliedAxis(state, m, base, k);
    }
  }

  /** So do all further ones. */
  lemma {:induction false} SuppliedPasses(state: State, m: Motion, base: real, left: nat)
    requires AllShaped(state, m.order) && m.Valid() && TimeOnly(m.force) && MiddleGiven(state, m, base)
    requires AllForced(state, m, base) && LastGiven(state, m, base) && left > 0
    ensures m.dvi != 0.0 && On(Passes(state, m.order, m.dvi, m.force, left), m, base)
  {
    hide Motion.Valid, Pass, TimeOnly, Given, On, Settled, MiddleGiven, AllForced;
    m.Degrees();
    SuppliedPass(state, m, base);
    var next := Pass(state, m.order, m.dvi, m.force);
    if left > 1 {
      OnLasts(next, m, base, left - 1);
    } else {
      assert Passes(next, m.order, m.dvi, m.force, 0) == next;
    }
  }

  lemma {:induction false} OnLasts(state: State, m: Motion, base: real, left: nat)
    requires AllShaped(state, m.order) && m.Valid() && Given(state, m, base) && On(state, m, base) && left > 0
    ensures m.dvi != 0.0 && On(Passes(state, m.order, m.dvi, m.force, left), m, base)
  {
    hide Motion.Valid, Passes, TimesOn, AxisGiven, AxisOn, Shaped, Kept;
    m.Degrees();
    PassesKeep(state, m, base, left);
    var r := Passes(state, m.order, m.dvi, m.force, left);
    forall k | 0 <= k < |m.paths| ensures AxisOn(r.steps[k], m.order, m.dvi, m.paths[k], base) {
      AxisLasts(state.steps[k], r.steps[k], m.order, m.dvi, m.paths[k], base);
    }
  }

  lemma {:induction false} AxisLasts(before: Axis, after: Axis, order: nat, dvi: real, p: Vector, base: real)
    requires Shaped(before, order) && Shaped(after, order) && AxisOn(before, order, dvi, p, base)
    requires Kept(before, after, order, dvi, p, base) && AxisGiven(after, order, dvi, p, base)
    ensures AxisOn(after, order, dvi, p, base)
  {
    hide ValuesOn, SumsOn, AWeights, BWeights;
    assert SumsOn(before[order], order, p, base + order as real);
    AxisCompletes(before, after, order, dvi, p, base);
  }

  // ---------- when the preset stops too early ----------

  /** The passes leave the last step of an odd order as it was given. */
  lemma {:induction false} PassesKeepLast(state: State, m: Motion, base: real, left: nat)
    requires AllShaped(state, m.order) && m.Valid() && TimeOnly(m.force) && MiddleGiven(state, m, base)
    ensures m.dvi != 0.0
    ensures LastGiven(Passes(state, m.order, m.dvi, m.force, left), m, base) <==> LastGiven(state, m, base)
    decreases left
  {
    hide Motion.Valid, Pass, TimeOnly, LastGiven, Settled, MiddleGiven;
    m.Degrees();
    assert |state.steps| == |m.paths| by { StepCount(state, m, base); }
    if left > 0 {
      PassKeepsMiddle(state, m, base);
      PassesKeepLast(Pass(state, m.order, m.dvi, m.force), m, base, left - 1);
    }
  }

  lemma {:induction false} StepCount(state: State, m: Motion, base: real)
    requires AllShaped(state, m.order) && MiddleGiven(state, m, base)
    ensures |state.steps| == |m.paths|
  {
    hide AxisMiddle, TimesOn;
  }

  lemma {:induction false} OnHasLast(state: State, m: Motion, base: real)
    requires AllShaped(state, m.order) && On(state, m, base)
    ensures LastGiven(state, m, base)
  {
    hide ValuesOn, SumsOn, AWeights, BWeights, TimesOn;
    var n := m.order;
    forall k | 0 <= k < |m.paths| ensures AxisLast(state.steps[k], m, base, k) {
      assert AxisOn(state.steps[k], n, m.dvi, m.paths[k], base);
      assert SumsOn(state.steps[k][n], n, m.paths[k], base + n as real);
    }
  }

  /** Sums that are right at all steps leave the second derivatives no choice, from the middle outwards. */
  lemma {:induction false} ForcedBySums(axis: Axis, order: nat, dvi: real, p: Vector, base: real, j: nat)
    requires Shaped(axis, order) && dvi != 0.0 && |p| <= order + 3 && j <= 2 * (order / 2)
    requires forall i: nat | i <= 2 * (order / 2) ::
      FirstSumAt(axis, order, dvi, i) == FirstSum(order, p, base + i as real)
    requires axis[order / 2].vd2 == Eval(DerivativeN(p, 2), base + (order / 2) as real)
    ensures axis[j].vd2 == Eval(DerivativeN(p, 2), base + j as real)
    decreases if j < order / 2 then order / 2 - j else j - order / 2
  {
    hide Eval, DerivativeN, FirstSum, Dot, FirstSumAt;
    var half := order / 2;
    FirstSumRule(axis, order, dvi, j);
    var x := base + j as real;
    if j > half {
      ForcedBySums(axis, order, dvi, p, base, j - 1);
      assert x - 1.0 == base + (j - 1) as real;
      assert FirstSumAt(axis, order, dvi, j - 1) == FirstSum(order, p, x - 1.0);
      FirstSumStep(order, p, x);
    } else if j < half {
      ForcedBySums(axis, order, dvi, p, base, j + 1);
      assert x + 1.0 == base + (j + 1) as real && x + 1.0 - 1.0 == x;
      assert FirstSumAt(axis, order, dvi, j + 1) == FirstSum(order, p, x + 1.0);
      FirstSumStep(order, p, x + 1.0);
    } else {
      assert x == base + half as real;
    }
  }

  lemma {:induction false} SumAfterPass(state: State, m: Motion, k: nat, j: nat)
    requires AllShaped(state, m.order) && m.dvi != 0.0 && k < |state.steps| && j <= 2 * (m.order / 2)
    ensures Pass(state, m.order, m.dvi, m.force).steps[k][j].s == FirstSumAt(state.steps[k], m.order, m.dvi, j)
  {
    hide Pass, FirstSumAt, SecondSumAt, Dot, PlacedSteps, Positions, SummedAxes;
    PassStep(state, m.order, m.dvi, m.force, k, j);
  }

  /** If one pass is enough, the second derivatives were right before it. */
  lemma {:induction false} OnePassAxis(state: State, m: Motion, base: real, k: nat)
    requires AllShaped(state, m.order) && m.Valid() && MiddleGiven(state, m, base) && LastGiven(state, m, base)
    requires k < |m.paths| && m.dvi != 0.0
    requires AxisOn(Pass(state, m.order, m.dvi, m.force).steps[k], m.order, m.dvi, m.paths[k], base)
    ensures AxisForced(state.steps[k], m, base, k)
  {
    hide Motion.Valid, Pass, FirstSumAt, FirstSum, SecondSum, AWeights, BWeights, TimesOn, OwnWeights, Eval,
         DerivativeN, PositionOn, VelocityOn;
    m.Degrees();
    var n, axis := m.order, state.steps[k];
    var after := Pass(state, n, m.dvi, m.force).steps[k];
    forall i: nat | i <= 2 * (n / 2)
      ensures FirstSumAt(axis, n, m.dvi, i) == FirstSum(n, m.paths[k], base + i as real)
    {
      SumAfterPass(state, m, k, i);
      assert SumsOn(after[i], n, m.paths[k], base + i as real);
    }
    assert AxisMiddle(axis, n, m.dvi, m.paths[k], base) && AxisLast(axis, m, base, k);
    forall j | 0 <= j <= n ensures axis[j].vd2 == Right(m, base, k, j) {
      if j <= 2 * (n / 2) {
        ForcedBySums(axis, n, m.dvi, m.paths[k], base, j);
      }
    }
  }

  lemma {:induction false} OnePass(state: State, m: Motion, base: real)
    requires AllShaped(state, m.order) && m.Valid() && MiddleGiven(state, m, base) && LastGiven(state, m, base)
    requires m.dvi != 0.0 && On(Pass(state, m.order, m.dvi, m.force), m, base)
    ensures AllForced(state, m, base)
  {
    hide Motion.Valid, Pass, LastGiven, AxisMiddle, TimesOn, AxisForced, AxisOn;
    forall k | 0 <= k < |m.paths| ensures AxisForced(state.steps[k], m, base, k) {
      OnePassAxis(state, m, base, k);
    }
  }

  /** The first pass ends the preset exactly when the last second derivative was nearly right in all axes. */
  lemma {:induction false} FirstPassSettles(state: State, m: Motion, base: real)
    requires AllShaped(state, m.order) && m.Valid() && TimeOnly(m.force) && MiddleGiven(state, m, base)
    requires m.order >= 2
    ensures m.dvi != 0.0
    ensures Settled(state.steps, Pass(state, m.order, m.dvi, m.force).steps, m.order) <==> !LastFarOff(state, m, base)
  {
    hide Motion.Valid, Pass, TimeOnly, AxisMiddle, TimesOn, Right, Near;
    m.Degrees();
    var last := 2 * (m.order / 2);
    var r := Pass(state, m.order, m.dvi, m.force);
    forall k | 0 <= k < |m.paths| ensures r.steps[k][last].vd2 == Right(m, base, k, last) {
      StepIsPassed(state, m, base, k, last);
    }
  }

  /** For small orders the middle step and the last one are all there is. */
  lemma {:induction false} SmallIsForced(state: State, m: Motion, base: real)
    requires AllShaped(state, m.order) && MiddleGiven(state, m, base) && LastGiven(state, m, base) && m.order < 2
    ensures AllForced(state, m, base)
  {
    hide PositionOn, VelocityOn, DerivativeN, SumsOn, OwnWeights, TimesOn, Eval;
    forall k | 0 <= k < |m.paths| ensures AxisForced(state.steps[k], m, base, k) {
      var axis := state.steps[k];
      assert AxisMiddle(axis, m.order, m.dvi, m.paths[k], base) && AxisLast(axis, m, base, k);
    }
  }

  /** Under a force of time alone, and with the middle step right, the preset starts the integrator exactly if
      the last step of an odd order was right with its sums, and if all second derivatives were right already
      or the last one was wrong by more than the tolerance: nearly right, it ends the preset after its
      first pass. */
  lemma {:induction false} PresetCorrects(state: State, m: Motion, base: real)
    requires AllShaped(state, m.order) && m.Valid() && TimeOnly(m.force) && MiddleGiven(state, m, base)
    ensures m.dvi != 0.0
    ensures On(Passes(state, m.order, m.dvi, m.force, PASSES), m, base) <==>
            LastGiven(state, m, base) && (AllForced(state, m, base) || LastFarOff(state, m, base))
  {
    hide Motion.Valid, Pass, TimeOnly, LastGiven, AllForced, LastFarOff, Settled, MiddleGiven, On;
    m.Degrees();
    StepCount(state, m, base);
    var r := Passes(state, m.order, m.dvi, m.force, PASSES);
    PassesKeepLast(state, m, base, PASSES);
    if On(r, m, base) {
      OnHasLast(r, m, base);
    }
    if LastGiven(state, m, base) {
      if AllForced(state, m, base) {
        SuppliedPasses(state, m, base, PASSES);
      } else {
        if m.order < 2 {
          SmallIsForced(state, m, base);
        }
        FirstPassSettles(state, m, base);
        PassKeepsMiddle(state, m, base);
        var next := Pass(state, m.order, m.dvi, m.force);
        if LastFarOff(state, m, base) {
          SuppliedPasses(next, m, base, PASSES - 1);
        } else if On(next, m, base) {
          OnePass(state, m, base);
        }
      }
    }
  }

  /** Values on a line without a force, but with a wrong second derivative at the first step. */
  function WrongFirst(order: nat): (state: State)
    ensures AllShaped(state, order)
  {
    var m := Gliding(order);
    SetAt(FilledTo(m, 0.0, order + 1), order, 0, m.TimeAt(0.0), m.PositionsAt(0.0), m.VelocitiesAt(0.0), [1.0])
  }

  lemma {:induction false} WrongFirstMiddle(order: nat)
    requires order >= 2
    ensures MiddleGiven(WrongFirst(order), Gliding(order), 0.0)
  {
    hide AWeights, BWeights, ValuesOn, FilledTo, Motion.TimeAt, Gliding;
    var m, state := Gliding(order), WrongFirst(order);
    FilledIsGiven(m, 0.0);
    var filled := FilledTo(m, 0.0, order + 1);
    assert AxisGiven(filled.steps[0], order, m.dvi, m.paths[0], 0.0);
    assert state.steps[0][order / 2] == filled.steps[0][order / 2];
    assert 0.0 + 0 as real == 0.0;
  }

  lemma {:induction false} WrongFirstForces(order: nat, j: nat)
    requires 2 <= order && j <= order
    ensures |WrongFirst(order).steps| == 1
    ensures WrongFirst(order).steps[0][j].vd2 == if j == 0 then 1.0 else 0.0
  {
    hide AWeights, BWeights, PositionOn, VelocityOn, FilledTo, DerivativeN, Eval;
    var m := Gliding(order);
    FilledIsGiven(m, 0.0);
    GlidingForce(order, 0.0 + j as real);
    var filled := FilledTo(m, 0.0, order + 1);
    assert AxisGiven(filled.steps[0], order, m.dvi, m.paths[0], 0.0);
    assert ValuesOn(filled.steps[0][j], m.paths[0], m.dvi, 0.0 + j as real);
  }

  lemma {:induction false} WrongFirstIs(order: nat)
    requires order >= 2 && order % 2 == 0
    ensures var m, state := Gliding(order), WrongFirst(order);
      && m.Valid() && TimeOnly(m.force) && MiddleGiven(state, m, 0.0)
      && LastGiven(state, m, 0.0) && !AllForced(state, m, 0.0) && !LastFarOff(state, m, 0.0)
  {
    hide Motion.Valid, MiddleGiven, WrongFirst, Eval, DerivativeN;
    GlidingIsValid(order);
    WrongFirstMiddle(order);
    WrongFirstForces(order, 0);
    WrongFirstForces(order, order);
    GlidingForce(order, 0.0 + 0 as real);
    GlidingForce(order, 0.0 + order as real);
    assert !AxisForced(WrongFirst(order).steps[0], Gliding(order), 0.0, 0);
  }

  lemma {:induction false} GlidingForce(order: nat, x: real)
    ensures Eval(DerivativeN(Gliding(order).paths[0], 2), x) == 0.0
  {
    EvalNil(x);
  }

  /** The last second derivative is right, so that the preset stops after one pass, with wrong sums. */
  lemma {:induction false} StopsTooEarly(order: nat)
    requires order >= 2 && order % 2 == 0
    ensures var m := Gliding(order);
            m.dvi != 0.0 && !On(Passes(WrongFirst(order), order, m.dvi, m.force, PASSES), m, 0.0)
  {
    hide Motion.Valid, On, Passes, WrongFirst, TimeOnly, MiddleGiven, LastGiven, AllForced, LastFarOff;
    WrongFirstIs(order);
    PresetCorrects(WrongFirst(order), Gliding(order), 0.0);
  }
}
