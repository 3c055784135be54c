/** A preset under a force that depends on the position: a body on a spring, of order 2. Its passes come nearer and
    nearer to the right values, and the tenth is the last although it still moves them. */
module IntegratorSwing {
  import opened Vectors
  import opened Polynomials
  import opened Derivatives
  import opened IntegratorSums
  import opened IntegratorSpec
  import opened IntegratorProofs

  /** The force pulls back to 0. */
  ghost predicate Springy(force: Force)
  {
    forall t: real, v: Vector, i | 0 <= i < |v| :: force(t, v)[i] == -v[i]
  }

  lemma {:induction false} SpringForce(force: Force, t: real, v: Vector, k: nat)
    requires Springy(force) && k < |v|
    ensures force(t, v)[k] == -v[k]
  {
  }

  /** The path with second derivative f, -1 and f at 0, 1 and 2, at rest in 1 at the middle. */
  function Bow(f: real): (p: Vector)
    ensures |p| == 5
  {
    var g := f + 1.0;
    [0.5 + g / 12.0, 1.0 - g / 3.0, -0.5 + g / 2.0, -g / 3.0, g / 12.0]
  }

  lemma {:induction false} BowDerivatives(f: real)
    ensures Derivative(Bow(f)) == [1.0 - (f + 1.0) / 3.0, -1.0 + (f + 1.0), -(f + 1.0), (f + 1.0) / 3.0]
    ensures DerivativeN(Bow(f), 2) == [f, -2.0 * (f + 1.0), f + 1.0]
  {
    Exactness.Twice(Bow(f));
    var g := f + 1.0;
    var d := Derivative(Bow(f));
    assert d[0] == 1.0 - g / 3.0 && d[1] == -1.0 + g && d[2] == -g && d[3] == g / 3.0;
    var e := Derivative(d);
    assert e[0] == f && e[1] == -2.0 * g && e[2] == g;
  }

  lemma {:induction false} EvalThree(a: real, b: real, c: real, x: real)
    ensures Eval([a, b, c], x) == a + x * (b + x * c)
  {
    EvalCons([a, b, c], x);
    EvalCons([b, c], x);
    EvalCons([c], x);
    EvalNil(x);
    assert [a, b, c][1..] == [b, c] && [b, c][1..] == [c] && [c][1..] == [];
  }

  lemma {:induction false} EvalFour(a: real, b: real, c: real, d: real, x: real)
    ensures Eval([a, b, c, d], x) == a + x * (b + x * (c + x * d))
  {
    EvalCons([a, b, c, d], x);
    EvalThree(b, c, d, x);
    assert [a, b, c, d][1..] == [b, c, d];
  }

  lemma {:induction false} EvalFive(a: real, b: real, c: real, d: real, e: real, x: real)
    ensures Eval([a, b, c, d, e], x) == a + x * (b + x * (c + x * (d + x * e)))
  {
    EvalCons([a, b, c, d, e], x);
    EvalFour(b, c, d, e, x);
    assert [a, b, c, d, e][1..] == [b, c, d, e];
  }

  /** The path at its three steps. */
  lemma {:induction false} BowValues(f: real)
    ensures Eval(Bow(f), 0.0) == Eval(Bow(f), 2.0) == (7.0 + f) / 12.0 && Eval(Bow(f), 1.0) == 1.0
    ensures Eval(Derivative(Bow(f)), 1.0) == 0.0
    ensures Eval(DerivativeN(Bow(f), 2), 0.0) == Eval(DerivativeN(Bow(f), 2), 2.0) == f
    ensures Eval(DerivativeN(Bow(f), 2), 1.0) == -1.0
  {
    hide Eval, Derivative, DerivativeN;
    var g := f + 1.0;
    BowDerivatives(f);
    forall x | x == 0.0 || x == 1.0 || x == 2.0
      ensures Eval(Bow(f), x) ==
              0.5 + g / 12.0 + x * (1.0 - g / 3.0 + x * (-0.5 + g / 2.0 + x * (-g / 3.0 + x * (g / 12.0))))
      ensures Eval(DerivativeN(Bow(f), 2), x) == f + x * (-2.0 * g + x * g)
    {
      EvalFive(0.5 + g / 12.0, 1.0 - g / 3.0, -0.5 + g / 2.0, -g / 3.0, g / 12.0, x);
      EvalThree(f, -2.0 * g, g, x);
    }
    EvalFour(1.0 - g / 3.0, -1.0 + g, -g, g / 3.0, 1.0);
  }

  /** The body at rest in 1 at the middle step, and second derivatives f beside it. */
  ghost predicate Swinging(state: State, f: real)
    requires AllShaped(state, 2)
  {
    && |state.steps| == 1
    && var axis := state.steps[0];
       && OwnWeights(axis, 2)
       && axis[1].vd0 == 1.0 && axis[1].vd1 == 0.0 && axis[1].vd2 == -1.0
       && axis[0].vd2 == f && axis[2].vd2 == f
  }

  lemma {:induction false} SwingIsSupplied(state: State, f: real)
    requires AllShaped(state, 2) && Swinging(state, f)
    ensures AxisSupplied(state.steps[0], 2, 1.0, Bow(f), 0.0)
  {
    hide Eval, Derivative, DerivativeN, OwnWeights, Bow;
    BowValues(f);
    assert 0.0 + 0 as real == 0.0 && 0.0 + 1 as real == 1.0 && 0.0 + 2 as real == 2.0;
    var axis := state.steps[0];
    forall j: nat | j <= 2 ensures axis[j].vd2 == Eval(DerivativeN(Bow(f), 2), 0.0 + j as real) {
      assert j == 0 || j == 1 || j == 2;
    }
    assert ValuesOn(axis[1], Bow(f), 1.0, 0.0 + 1 as real);
  }

  /** Where a pass places a step beside the middle one. */
  lemma {:induction false} SwingPlaced(state: State, f: real, j: nat)
    requires AllShaped(state, 2) && Swinging(state, f) && (j == 0 || j == 2)
    ensures Placed(SummedStep(state.steps[0], 2, 1.0, j), 1.0).vd0 == (7.0 + f) / 12.0
  {
    hide Eval, Derivative, DerivativeN, OwnWeights, Bow, SummedStep, Placed, AxisSupplied;
    SwingIsSupplied(state, f);
    PlacedOn(state.steps[0], 2, 1.0, Bow(f), 0.0, j);
    BowValues(f);
    assert 0.0 + j as real == if j == 0 then 0.0 else 2.0;
  }

  lemma {:induction false} SwingStep(state: State, force: Force, f: real, j: nat)
    requires AllShaped(state, 2) && Springy(force) && Swinging(state, f) && j <= 3
    ensures var before, after := state.steps[0][j], Pass(state, 2, 1.0, force).steps[0][j];
      && after.a == before.a && after.b == before.b
      && (j == 1 ==> after.vd0 == before.vd0 && after.vd1 == before.vd1 && after.vd2 == before.vd2)
      && (j == 0 || j == 2 ==> after.vd2 == -(7.0 + f) / 12.0)
  {
    hide Pass, FirstSumAt, SecondSumAt, Dot, OwnWeights;
    PassStep(state, 2, 1.0, force, 0, j);
    if j == 0 || j == 2 {
      var placed := PlacedSteps(SummedAxes(state.steps, 2, 1.0), 2, 1.0, j);
      SwingPlaced(state, f, j);
      SpringForce(force, state.vi[j], Positions(placed), 0);
    }
  }

  /** One pass. */
  lemma {:induction false} SwingsOn(state: State, force: Force, f: real)
    requires AllShaped(state, 2) && Springy(force) && Swinging(state, f)
    ensures Swinging(Pass(state, 2, 1.0, force), -(7.0 + f) / 12.0)
  {
    hide Pass, AWeights, BWeights, Springy;
    forall j: nat | j <= 3
      ensures var before, after := state.steps[0][j], Pass(state, 2, 1.0, force).steps[0][j];
              after.a == before.a && after.b == before.b
    {
      SwingStep(state, force, f, j);
    }
    SwingStep(state, force, f, 0);
    SwingStep(state, force, f, 1);
    SwingStep(state, force, f, 2);
  }

  /** The second derivative beside the middle step after n passes, from 0 on. */
  function SwingAfter(n: nat): real
  {
    if n == 0 then 0.0 else -(7.0 + SwingAfter(n - 1)) / 12.0
  }

  lemma {:induction false} SwingAgain(state: State, force: Force, n: nat)
    requires AllShaped(state, 2)
    ensures Iterated(state, 2, 1.0, force, 0) == state
    ensures Iterated(state, 2, 1.0, force, n + 1) == Pass(Iterated(state, 2, 1.0, force, n), 2, 1.0, force)
    ensures SwingAfter(0) == 0.0 && SwingAfter(n + 1) == -(7.0 + SwingAfter(n)) / 12.0
  {
    hide Pass;
  }

  lemma {:induction false} SwingIterated(state: State, force: Force, n: nat)
    requires AllShaped(state, 2) && Springy(force) && Swinging(state, 0.0)
    ensures Swinging(Iterated(state, 2, 1.0, force, n), SwingAfter(n))
  {
    hide Pass, Swinging, Iterated, SwingAfter, Springy;
    SwingAgain(state, force, 0);
    if n > 0 {
      SwingAgain(state, force, n - 1);
      SwingIterated(state, force, n - 1);
      SwingsOn(Iterated(state, 2, 1.0, force, n - 1), force, SwingAfter(n - 1));
    }
  }

  /** A pass moves the value by the twelfth part of what the pass before it did, and the other way. */
  lemma {:induction false} SwingShrinks(n: nat)
    requires n >= 1
    ensures SwingAfter(n + 1) - SwingAfter(n) == -(SwingAfter(n) - SwingAfter(n - 1)) / 12.0
  {
  }

  lemma {:induction false} SwingMoves(n: nat)
    requires n < 10
    ensures var moved := SwingAfter(n + 1) - SwingAfter(n);
            moved > 0.0000000001 || moved < -0.0000000001
  {
    var m0 := -7.0 / 12.0;
    assert SwingAfter(0) == 0.0 && SwingAfter(1) == m0;
    if n >= 1 { SwingShrinks(1); }
    if n >= 2 { SwingShrinks(2); }
    if n >= 3 { SwingShrinks(3); }
    if n >= 4 { SwingShrinks(4); }
    if n >= 5 { SwingShrinks(5); }
    if n >= 6 { SwingShrinks(6); }
    if n >= 7 { SwingShrinks(7); }
    if n >= 8 { SwingShrinks(8); }
    if n >= 9 { SwingShrinks(9); }
  }

  /** A twelfth to the n-th power. */
  function Twelfths(n: nat): real
  {
    if n == 0 then 1.0 else Twelfths(n - 1) / 12.0
  }

  lemma {:induction false} SwingClosed(n: nat)
    ensures SwingAfter(n) == -7.0 / 13.0 * (1.0 - if n % 2 == 0 then Twelfths(n) else -Twelfths(n))
  {
    if n > 0 {
      SwingClosed(n - 1);
    }
  }

  lemma {:induction false} SwingNeverStill(state: State, force: Force, i: nat)
    requires AllShaped(state, 2) && Springy(force) && Swinging(state, 0.0) && i < 10
    ensures !StoodStill(Iterated(state, 2, 1.0, force, i), Iterated(state, 2, 1.0, force, i + 1), 2)
  {
    hide Iterated, OwnWeights, SwingAfter, Springy;
    SwingIterated(state, force, i);
    SwingIterated(state, force, i + 1);
    SwingMoves(i);
  }

  /** The preset makes all its ten passes, and ends short of the right value -7/13 by 7/13 of a twelfth to the tenth,
      which the next pass would still better. */
  lemma {:induction false} TenPasses(state: State, force: Force)
    requires AllShaped(state, 2) && Springy(force) && Swinging(state, 0.0)
    ensures var r := Passes(state, 2, 1.0, force, PASSES);
      && r == Iterated(state, 2, 1.0, force, 10)
      && Swinging(r, -7.0 / 13.0 * (1.0 - 1.0 / 61917364224.0))
      && !StoodStill(Iterated(state, 2, 1.0, force, 9), r, 2)
  {
    hide Iterated, Swinging, StoodStill, Passes, Springy;
    var n := PassesEnd(state, 2, 1.0, force, PASSES);
    if n < 10 {
      SwingNeverStill(state, force, n - 1);
    }
    SwingNeverStill(state, force, 9);
    SwingIterated(state, force, 10);
    SwingClosed(10);
    assert Twelfths(10) == 1.0 / 61917364224.0;
  }

  /** There is such a force, and a new instance with only the middle step set is such a state. */
  lemma {:induction false} SwingStarts(t: real)
    ensures exists force :: Springy(force)
    ensures Swinging(SetAt(NewState(2, 1), 2, 1, t, [1.0], [0.0], [-1.0]), 0.0)
  {
    hide AWeights, BWeights;
    var force: Force := (t: real, v: Vector) => seq(|v|, i requires 0 <= i < |v| => -v[i]);
    assert Springy(force);
  }
}
