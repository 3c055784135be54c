/** gauss_jackson_instance, _setstep, _preset and _extrapolate of mathlib.cpp, which change an instance in place. */
module Integrator {
  import opened Vectors
  import opened GaussJackson
  import opened IntegratorSums
  import opened IntegratorSpec

  const MATH_ERROR_GJ_OUTOFRANGE := -282

  /** What a call comes to: a return value, or an access where there is no step, of which C++ says nothing. */
  datatype Access = Returns(code: int) | Outside

  // ---------- loops over one axis ----------

  lemma {:induction false} NoTerms(u: Vector, v: Vector)
    requires |u| == |v|
    ensures Dot(u[..0], v[..0]) == 0.0 && u[..|u|] == u && v[..|v|] == v
  {
  }

  lemma {:induction false} OneWeight(w: Vector, axis: Axis, order: nat, k: nat)
    requires Shaped(axis, order) && |w| == order + 1 && k <= order
    ensures var f := SecondDerivatives(axis, order);
            Dot(w[..k + 1], f[..k + 1]) == Dot(w[..k], f[..k]) + w[k] * axis[k].vd2
  {
    hide Dot;
    var f := SecondDerivatives(axis, order);
    DotExtend(w, f, k);
    SameProduct(w[k], f[k], w[k], axis[k].vd2);
  }

  method Weighted(w: Vector, axis: Axis, order: nat) returns (sum: real)
    requires Shaped(axis, order) && |w| == order + 1
    ensures sum == Dot(w, SecondDerivatives(axis, order))
  {
    hide Dot;
    ghost var f := SecondDerivatives(axis, order);
    NoTerms(w, f);
    sum := 0.0;
    for k := 0 to order + 1
      invariant sum == Dot(w[..k], f[..k])
    {
      OneWeight(w, axis, order, k);
      sum := sum + w[k] * axis[k].vd2;
    }
  }

  method LessWeighted(start: real, w: Vector, axis: Axis, order: nat) returns (rest: real)
    requires Shaped(axis, order) && |w| == order + 1
    ensures rest == start - Dot(w, SecondDerivatives(axis, order))
  {
    hide Dot;
    ghost var f := SecondDerivatives(axis, order);
    NoTerms(w, f);
    rest := start;
    for k := 0 to order + 1
      invariant rest == start - Dot(w[..k], f[..k])
    {
      OneWeight(w, axis, order, k);
      rest := rest - w[k] * axis[k].vd2;
    }
  }

  /** The loop that moves everything down by one. */
  method MoveDown<T>(v: seq<T>, order: nat) returns (r: seq<T>)
    requires |v| == order + 2
    ensures r == Moved(v)
  {
    r := v;
    for k := 0 to order + 1
      invariant |r| == |v|
      invariant forall i | 0 <= i < k :: r[i] == v[i + 1]
      invariant forall i | k <= i < |v| :: r[i] == v[i]
    {
      var next := r[k + 1];
      r := r[k := next];
    }
  }

  ghost predicate FirstSet(axis: Axis, order: nat, dvi: real, step: GjStep, j: nat)
    requires Shaped(axis, order) && dvi != 0.0 && j < order + 2
  {
    step == if j <= 2 * (order / 2) then axis[j].(s := FirstSumAt(axis, order, dvi, j)) else axis[j]
  }

  ghost predicate BothSet(axis: Axis, order: nat, dvi: real, step: GjStep, j: nat)
    requires Shaped(axis, order) && dvi != 0.0 && j < order + 2
  {
    step == if j <= 2 * (order / 2)
            then axis[j].(s := FirstSumAt(axis, order, dvi, j), ss := SecondSumAt(axis, order, dvi, j)) else axis[j]
  }

  /** The sums s, from the middle outwards. */
  method FirstSums(axis: Axis, order: nat, dvi: real) returns (r: Axis)
    requires Shaped(axis, order) && dvi != 0.0
    ensures Shaped(r, order)
    ensures forall j | 0 <= j < order + 2 :: FirstSet(axis, order, dvi, r[j], j)
  {
    hide Dot, FirstSumAt;
    var half := order / 2;
    FirstSumRule(axis, order, dvi, half);
    var s := LessWeighted(axis[half].vd1 / dvi, axis[half].b, axis, order);
    r := axis[half := axis[half].(s := s)];
    for n := 1 to half + 1
      invariant |r| == order + 2
      invariant forall j | 0 <= j < order + 2 ::
        if half - n < j < half + n then FirstSet(axis, order, dvi, r[j], j) else r[j] == axis[j]
    {
      var up, down := half + n, half - n;
      FirstSumRule(axis, order, dvi, up);
      FirstSumRule(axis, order, dvi, down);
      r := r[up := r[up].(s := r[up - 1].s + (r[up].vd2 + r[up - 1].vd2) / 2.0)];
      r := r[down := r[down].(s := r[down + 1].s - (r[down].vd2 + r[down + 1].vd2) / 2.0)];
    }
  }

  lemma {:induction false} SecondSumRule(axis: Axis, order: nat, dvi: real, j: nat)
    requires Shaped(axis, order) && dvi != 0.0 && j <= 2 * (order / 2)
    ensures dvi * dvi != 0.0
    ensures var half := order / 2;
            SecondSumAt(axis, order, dvi, j) ==
            if j == half then axis[half].vd0 / (dvi * dvi) - Dot(axis[half].a, SecondDerivatives(axis, order))
            else if j > half then
              SecondSumAt(axis, order, dvi, j - 1) + FirstSumAt(axis, order, dvi, j - 1) + axis[j - 1].vd2 / 2.0
            else
              SecondSumAt(axis, order, dvi, j + 1) - FirstSumAt(axis, order, dvi, j + 1) + axis[j + 1].vd2 / 2.0
  {
    hide FirstSumAt, Dot;
    NonzeroProduct(dvi, dvi);
  }

  /** The sums ss, from the middle outwards. */
  method SecondSums(axis: Axis, order: nat, dvi: real, ghost given: Axis) returns (r: Axis)
    requires Shaped(given, order) && Shaped(axis, order) && dvi != 0.0
    requires forall j | 0 <= j < order + 2 :: FirstSet(given, order, dvi, axis[j], j)
    ensures Shaped(r, order)
    ensures forall j | 0 <= j < order + 2 :: BothSet(given, order, dvi, r[j], j)
  {
    hide Dot, FirstSumAt, SecondSumAt;
    var half := order / 2;
    SecondSumRule(given, order, dvi, half);
    assert forall j | 0 <= j < order + 2 :: axis[j].vd2 == given[j].vd2;
    assert SecondDerivatives(axis, order) == SecondDerivatives(given, order);
    var ss := LessWeighted(axis[half].vd0 / (dvi * dvi), axis[half].a, axis, order);
    r := axis[half := axis[half].(ss := ss)];
    for n := 1 to half + 1
      invariant |r| == order + 2
      invariant forall j | 0 <= j < order + 2 ::
        if half - n < j < half + n then BothSet(given, order, dvi, r[j], j) else FirstSet(given, order, dvi, r[j], j)
    {
      var up, down := half + n, half - n;
      SecondSumRule(given, order, dvi, up);
      SecondSumRule(given, order, dvi, down);
      r := r[up := r[up].(ss := r[up - 1].ss + r[up - 1].s + r[up - 1].vd2 / 2.0)];
      r := r[down := r[down].(ss := r[down + 1].ss - r[down + 1].s + r[down + 1].vd2 / 2.0)];
    }
  }

  /** All sums of one axis. */
  method SumAxis(axis: Axis, order: nat, dvi: real) returns (r: Axis)
    requires Shaped(axis, order) && dvi != 0.0
    ensures r == Summed(axis, order, dvi)
  {
    hide Dot, FirstSumAt, SecondSumAt, FirstSet;
    var half := order / 2;
    var first := FirstSums(axis, order, dvi);
    r := SecondSums(first, order, dvi, axis);
    ghost var sums := r;
    for n := 0 to order + 1
      invariant Shaped(r, order)
      invariant forall j | 0 <= j < n :: r[j] == SummedStep(axis, order, dvi, j)
      invariant forall j | n <= j < order + 2 :: BothSet(axis, order, dvi, r[j], j)
      invariant forall j | 0 <= j < order + 2 :: r[j].vd2 == axis[j].vd2 && r[j].a == axis[j].a && r[j].b == axis[j].b
    {
      if n != half {
        assert SecondDerivatives(r, order) == SecondDerivatives(axis, order);
        var sb := Weighted(r[n].b, r, order);
        var sa := Weighted(r[n].a, r, order);
        r := r[n := r[n].(sa := sa, sb := sb)];
      }
    }
  }

  // ---------- an instance ----------

  lemma {:induction false} StepIsWeights(kern: Kernel, a: array2<real>, b: array2<real>)
    requires kern.Shaped() && kern.SeriesFilled() && kern.RowsFilled()
    requires a.Length0 == b.Length0 == kern.order + 2 && a.Length1 == b.Length1 == kern.order + 1
    requires forall j, m | 0 <= j < kern.order + 2 && 0 <= m <= kern.order ::
      && a[j, kern.order - m] == Ordinate(RowOf(kern.alpha, j), m)
      && b[j, kern.order - m] == Ordinate(RowOf(kern.beta, j), m) + if kern.order - m == j then 0.5 else 0.0
    ensures forall j | 0 <= j < kern.order + 2 ::
      RowOf(a, j) == AWeights(kern.order, j) && RowOf(b, j) == BWeights(kern.order, j)
  {
    hide Ordinate, Kernel.RowsFilled, Kernel.SeriesFilled, AWeights, BWeights, RowOf;
    forall j | 0 <= j < kern.order + 2
      ensures RowOf(a, j) == AWeights(kern.order, j) && RowOf(b, j) == BWeights(kern.order, j)
    {
      RowsAreWeights(kern, a, b, j);
    }
  }

  /** The weights of all rows, as the tables of the kernel give them. */
  method NewAxis(kern: Kernel) returns (axis: Axis)
    requires kern.Shaped() && kern.BinomFilled() && kern.SeriesFilled() && kern.RowsFilled()
    ensures |axis| == kern.order + 2
    ensures axis == NewSteps(kern.order)
  {
    hide AWeights, BWeights, Ordinate, Kernel.BinomFilled, Kernel.RowsFilled, Kernel.SeriesFilled, TableRow;
    var a, b := Step(kern);
    StepIsWeights(kern, a, b);
    axis := [];
    for j := 0 to kern.order + 2
      invariant axis == NewSteps(kern.order)[..j]
    {
      axis := axis + [GjStep(0.0, 0.0, 0.0, RowOf(a, j), RowOf(b, j), 0.0, 0.0, 0.0, 0.0)];
    }
  }

  lemma {:induction false} SumsAre(kern: Kernel)
    requires kern.Shaped() && kern.SeriesFilled()
    ensures kern.gam[1..] == SumsFrom(CTable(kern.order + 3), 1, kern.order + 1)
    ensures kern.lam[2..] == SumsFrom(QTable(kern.order + 3), 2, kern.order + 1)
  {
    hide CTable, QTable, Sum;
  }

  lemma {:induction false} RowsAreWeights(kern: Kernel, a: array2<real>, b: array2<real>, j: nat)
    requires kern.Shaped() && kern.SeriesFilled() && kern.RowsFilled() && j < kern.order + 2
    requires a.Length0 == b.Length0 == kern.order + 2 && a.Length1 == b.Length1 == kern.order + 1
    requires forall m | 0 <= m <= kern.order ::
      && a[j, kern.order - m] == Ordinate(RowOf(kern.alpha, j), m)
      && b[j, kern.order - m] == Ordinate(RowOf(kern.beta, j), m) + if kern.order - m == j then 0.5 else 0.0
    ensures RowOf(a, j) == AWeights(kern.order, j) && RowOf(b, j) == BWeights(kern.order, j)
  {
    hide CTable, QTable, Sum, TableRow, Ordinate;
    var n := kern.order;
    SumsAre(kern);
    forall i | 0 <= i <= n ensures RowOf(a, j)[i] == AWeights(n, j)[i] && RowOf(b, j)[i] == BWeights(n, j)[i] {
      assert n - (n - i) == i;
      assert a[j, n - (n - i)] == Ordinate(RowOf(kern.alpha, j), n - i);
    }
  }

  /** Axis k with step j corrected. */
  function CorrectedAt(state: State, order: nat, dvi: real, force: Force, k: nat, j: nat): (r: Axis)
    requires AllShaped(state, order) && k < |state.steps| && j < order + 2
    ensures |r| == order + 2
  {
    var placed := PlacedSteps(state.steps, order, dvi, j);
    state.steps[k][j := placed[k].(vd2 := force(state.vi[j], Positions(placed))[k])]
  }

  lemma {:induction false} PlacedKeeps(step: GjStep, dvi: real)
    ensures Placed(step, dvi).vd2 == step.vd2 && Placed(step, dvi).a == step.a && Placed(step, dvi).b == step.b
  {
  }

  /** The steps between lo and hi are corrected, the others are as they were. */
  ghost predicate CorrectedWithin(cur: seq<Axis>, summed: State, order: nat, dvi: real, force: Force, lo: int, hi: int)
    requires AllShaped(summed, order)
  {
    && |cur| == |summed.steps| && AxesShaped(cur, order)
    && forall k, j {:trigger cur[k][j]} | 0 <= k < |cur| && 0 <= j < order + 2 ::
         cur[k][j] == if lo < j < hi then CorrectedStep(summed, order, dvi, force, k, j) else summed.steps[k][j]
  }

  lemma {:induction false} SamePlaces(cur: seq<Axis>, before: seq<Axis>, order: nat, dvi: real, j: nat)
    requires |cur| == |before| && AxesShaped(cur, order) && AxesShaped(before, order) && j < order + 2
    requires forall k | 0 <= k < |cur| :: cur[k][j] == before[k][j]
    ensures PlacedSteps(cur, order, dvi, j) == PlacedSteps(before, order, dvi, j)
  {
  }

  /** One more step is corrected, below or above the others. */
  lemma {:induction false} OneMoreCorrected(cur: seq<Axis>, next: seq<Axis>, summed: State, order: nat, dvi: real,
                                            force: Force, lo: int, hi: int, j: nat)
    requires AllShaped(summed, order) && CorrectedWithin(cur, summed, order, dvi, force, lo, hi)
    requires Corrected(order, j) && (j == lo || j == hi) && lo < hi
    requires |next| == |cur| && AxesShaped(next, order)
    requires forall k | 0 <= k < |cur| :: next[k] == CorrectedAt(State(summed.vi, cur), order, dvi, force, k, j)
    ensures CorrectedWithin(next, summed, order, dvi, force, if j == lo then lo - 1 else lo,
                            if j == lo then hi else hi + 1)
  {
    hide PlacedSteps, Positions;
    SamePlaces(cur, summed.steps, order, dvi, j);
  }

  /** A second derivative of step j is not the same any more. */
  ghost predicate AnyMoved(before: seq<Axis>, after: seq<Axis>, order: nat, j: nat)
    requires |before| == |after| && AxesShaped(before, order) && AxesShaped(after, order) && j < order + 2
  {
    exists k :: 0 <= k < |before| && !Near(before[k][j].vd2, after[k][j].vd2)
  }

  lemma {:induction false} LastDecides(before: seq<Axis>, after: seq<Axis>, order: nat, dvi: real)
    requires |before| == |after| && AxesShaped(before, order) && AxesShaped(after, order) && dvi != 0.0
    ensures Settled(before, after, order) <==>
            order >= 2 && !AnyMoved(SummedAxes(before, order, dvi), after, order, 2 * (order / 2))
  {
    hide Summed, Near;
    forall k | 0 <= k < |before|
      ensures SummedAxes(before, order, dvi)[k][2 * (order / 2)].vd2 == before[k][2 * (order / 2)].vd2
    {
      SummedKeeps(before[k], order, dvi, 2 * (order / 2));
    }
  }

  lemma {:induction false} NothingCorrected(summed: State, order: nat, dvi: real, force: Force)
    requires AllShaped(summed, order)
    ensures CorrectedWithin(summed.steps, summed, order, dvi, force, order / 2 - 1, order / 2 + 1)
  {
  }

  lemma {:induction false} StillSummed(cur: seq<Axis>, summed: State, order: nat, dvi: real, force: Force,
                                       lo: int, hi: int)
    requires AllShaped(summed, order) && CorrectedWithin(cur, summed, order, dvi, force, lo, hi) && 0 <= hi < order + 2
    ensures forall k | 0 <= k < |cur| :: cur[k][hi] == summed.steps[k][hi]
  {
  }

  lemma {:induction false} AllCorrected(state: State, before: State, order: nat, dvi: real, force: Force)
    requires AllShaped(state, order) && AllShaped(before, order) && dvi != 0.0 && state.vi == before.vi
    requires var summed := State(before.vi, SummedAxes(before.steps, order, dvi));
             CorrectedWithin(state.steps, summed, order, dvi, force, -1, 2 * (order / 2) + 1)
    ensures state == Pass(before, order, dvi, force)
  {
    hide PlacedSteps, Positions, Summed;
    var r := Pass(before, order, dvi, force);
    forall k | 0 <= k < |state.steps| ensures state.steps[k] == r.steps[k] {
      assert Shaped(r.steps[k], order);
    }
  }

  lemma {:induction false} SummedKeeps(axis: Axis, order: nat, dvi: real, j: nat)
    requires Shaped(axis, order) && dvi != 0.0 && j < order + 2
    ensures Summed(axis, order, dvi)[j].vd2 == axis[j].vd2
  {
  }

  lemma {:induction false} SameNext(before: Axis, predicted: Axis, order: nat, next: GjStep, vd2: real)
    requires Shaped(before, order) && Shaped(predicted, order) && predicted == before[order + 1 := next]
    ensures NextAxis(predicted, order, predicted[order + 1], vd2) == NextAxis(before, order, next, vd2)
  {
    assert predicted[order + 1 := Completed(next, before[order], vd2)] ==
           before[order + 1 := Completed(next, before[order], vd2)];
  }

  class Instance {
    const kern: Kernel
    const calcVd2: Force
    var vi: seq<real>
    var steps: seq<Axis>

    ghost predicate Valid()
      reads this
    {
      AllShaped(State(vi, steps), kern.order)
    }

    function Now(): State
      reads this
    {
      State(vi, steps)
    }

    /** gauss_jackson_instance: every step of every axis with the weights of its own row. */
    constructor (kern: Kernel, axes: nat, calcVd2: Force)
      requires kern.Shaped() && kern.BinomFilled() && kern.SeriesFilled() && kern.RowsFilled()
      ensures Valid() && this.kern == kern && this.calcVd2 == calcVd2
      ensures Now() == NewState(kern.order, axes)
    {
      var all: seq<Axis> := [];
      for i := 0 to axes
        invariant |all| == i && forall k | 0 <= k < i :: all[k] == NewSteps(kern.order)
      {
        var axis := NewAxis(kern);
        all := all + [axis];
      }
      this.kern, this.calcVd2 := kern, calcVd2;
      vi, steps := ZeroVector(kern.order + 2), all;
    }

    /** gauss_jackson_setstep. The test lets negative indices and order + 2 through, for which there is no step. */
    method SetStep(t: real, vd0: Vector, vd1: Vector, vd2: Vector, istep: int) returns (r: Access)
      requires Valid() && |vd0| == |vd1| == |vd2| == |steps|
      modifies this`vi, this`steps
      ensures Valid()
      ensures r == if istep > kern.order + 2 then Returns(MATH_ERROR_GJ_OUTOFRANGE)
                   else if 0 <= istep <= kern.order + 1 then Returns(0) else Outside
      ensures Now() == if r == Returns(0) then SetAt(old(Now()), kern.order, istep, t, vd0, vd1, vd2) else old(Now())
    {
      if istep > kern.order + 2 {
        return Returns(MATH_ERROR_GJ_OUTOFRANGE);
      }
      if istep < 0 || istep >= |vi| {
        return Outside;
      }
      vi := vi[istep := t];
      ghost var before: seq<Axis> := steps;
      for i := 0 to |steps|
        invariant |steps| == |before| && Valid() && vi == old(vi)[istep := t]
        invariant forall k | 0 <= k < i :: steps[k] == WithValues(before[k], istep, vd0[k], vd1[k], vd2[k])
        invariant forall k | i <= k < |steps| :: steps[k] == before[k]
      {
        var step := steps[i][istep].(vd0 := vd0[i], vd1 := vd1[i], vd2 := vd2[i]);
        steps := steps[i := steps[i][istep := step]];
      }
      return Returns(0);
    }

    /** Position and velocity of step j of all axes by their sums. */
    method Place(j: nat) returns (newvd0: Vector)
      requires Valid() && j < kern.order + 2
      modifies this`steps
      ensures Valid() && |steps| == |old(steps)|
      ensures newvd0 == Positions(PlacedSteps(old(steps), kern.order, kern.dvi, j))
      ensures forall k | 0 <= k < |steps| :: steps[k] == old(steps)[k][j := Placed(old(steps)[k][j], kern.dvi)]
    {
      hide Placed;
      ghost var before: seq<Axis> := steps;
      newvd0 := [];
      for k := 0 to |steps|
        invariant |steps| == |before| && |newvd0| == k
        invariant forall i | 0 <= i < k :: newvd0[i] == Placed(before[i][j], kern.dvi).vd0
        invariant forall i | 0 <= i < k :: steps[i] == before[i][j := Placed(before[i][j], kern.dvi)]
        invariant forall i | k <= i < |steps| :: steps[i] == before[i]
      {
        var placed := Placed(steps[k][j], kern.dvi);
        steps := steps[k := steps[k][j := placed]];
        newvd0 := newvd0 + [placed.vd0];
      }
      forall k | 0 <= k < |steps| ensures Shaped(steps[k], kern.order) {
        PlacedKeeps(before[k][j], kern.dvi);
      }
    }

    /** The new second derivatives of step j. The flag tells whether one of them moved. */
    method Replace(j: nat, newvd2: Vector) returns (moved: bool)
      requires Valid() && j < kern.order + 2 && |newvd2| == |steps|
      modifies this`steps
      ensures Valid() && |steps| == |old(steps)|
      ensures forall k | 0 <= k < |steps| :: steps[k] == old(steps)[k][j := old(steps)[k][j].(vd2 := newvd2[k])]
      ensures moved <==> exists k :: 0 <= k < |steps| && !Near(old(steps)[k][j].vd2, newvd2[k])
    {
      hide Near;
      ghost var before: seq<Axis> := steps;
      moved := false;
      for k := 0 to |steps|
        invariant |steps| == |before|
        invariant forall i | 0 <= i < k :: steps[i] == before[i][j := before[i][j].(vd2 := newvd2[i])]
        invariant forall i | k <= i < |steps| :: steps[i] == before[i]
        invariant moved <==> exists i :: 0 <= i < k && !Near(before[i][j].vd2, newvd2[i])
      {
        var oldvd2 := steps[k][j].vd2;
        steps := steps[k := steps[k][j := steps[k][j].(vd2 := newvd2[k])]];
        if !Near(oldvd2, newvd2[k]) {
          moved := true;
        }
      }
    }

    /** One step of all axes: placed by its sums, and the force there. */
    method Correct(j: nat) returns (moved: bool)
      requires Valid() && j < kern.order + 2
      modifies this`steps
      ensures Valid() && |steps| == |old(steps)|
      ensures forall k | 0 <= k < |steps| :: steps[k] == CorrectedAt(old(Now()), kern.order, kern.dvi, calcVd2, k, j)
      ensures moved <==> AnyMoved(old(steps), steps, kern.order, j)
    {
      hide Placed, Near;
      ghost var before: seq<Axis> := steps;
      forall k | 0 <= k < |before| ensures Placed(before[k][j], kern.dvi).vd2 == before[k][j].vd2 {
        PlacedKeeps(before[k][j], kern.dvi);
      }
      var newvd0 := Place(j);
      var newvd2 := calcVd2(vi[j], newvd0);
      moved := Replace(j, newvd2);
      forall k | 0 <= k < |steps|
        ensures steps[k] == CorrectedAt(State(vi, before), kern.order, kern.dvi, calcVd2, k, j)
        ensures steps[k][j].vd2 == newvd2[k]
      {
      }
    }

    method SumAll()
      requires Valid() && kern.dvi != 0.0
      modifies this`steps
      ensures Valid() && steps == SummedAxes(old(steps), kern.order, kern.dvi)
    {
      hide Summed;
      ghost var before: seq<Axis> := steps;
      for i := 0 to |steps|
        invariant |steps| == |before| && Valid()
        invariant forall k | 0 <= k < i :: steps[k] == Summed(before[k], kern.order, kern.dvi)
        invariant forall k | i <= k < |steps| :: steps[k] == before[k]
      {
        var axis := SumAxis(steps[i], kern.order, kern.dvi);
        steps := steps[i := axis];
      }
    }

    /** The corrections of the two steps at distance n from the middle; the flag is that of the later one. */
    method CorrectPair(n: nat, ghost summed: State) returns (cflag: bool)
      requires Valid() && AllShaped(summed, kern.order) && summed.vi == vi && 1 <= n <= kern.order / 2
      requires CorrectedWithin(steps, summed, kern.order, kern.dvi, calcVd2, kern.order / 2 - n, kern.order / 2 + n)
      modifies this`steps
      ensures Valid() && |steps| == |summed.steps|
      ensures CorrectedWithin(steps, summed, kern.order, kern.dvi, calcVd2, kern.order / 2 - n - 1,
                              kern.order / 2 + n + 1)
      ensures cflag <==> AnyMoved(summed.steps, steps, kern.order, kern.order / 2 + n)
    {
      hide CorrectedAt, CorrectedStep, PlacedSteps, Near, Shaped;
      var order, half := kern.order, kern.order / 2;
      ghost var cur: seq<Axis> := steps;
      cflag := Correct(half - n);
      OneMoreCorrected(cur, steps, summed, order, kern.dvi, calcVd2, half - n, half + n, half - n);
      cur := steps;
      cflag := Correct(half + n);
      OneMoreCorrected(cur, steps, summed, order, kern.dvi, calcVd2, half - n - 1, half + n, half + n);
      StillSummed(cur, summed, order, kern.dvi, calcVd2, half - n - 1, half + n);
    }

    /** The sums of all axes, then the corrections from the middle outwards, below before above. */
    method PassOnce() returns (cflag: bool)
      requires Valid() && kern.dvi != 0.0
      modifies this`steps
      ensures Valid() && Now() == Pass(old(Now()), kern.order, kern.dvi, calcVd2)
      ensures cflag <==> !Settled(old(steps), steps, kern.order)
    {
      hide CorrectedWithin, Summed, AnyMoved, Pass, Near;
      ghost var before: seq<Axis> := steps;
      SumAll();
      ghost var summed := Now();
      cflag := true;
      var half := kern.order / 2;
      NothingCorrected(summed, kern.order, kern.dvi, calcVd2);
      for n := 1 to half + 1
        invariant Valid() && |steps| == |before|
        invariant CorrectedWithin(steps, summed, kern.order, kern.dvi, calcVd2, half - n, half + n)
        invariant if n == 1 then cflag else cflag <==> AnyMoved(summed.steps, steps, kern.order, half + n - 1)
      {
        cflag := CorrectPair(n, summed);
      }
      AllCorrected(Now(), State(vi, before), kern.order, kern.dvi, calcVd2);
      LastDecides(before, steps, kern.order, kern.dvi);
    }

    /** gauss_jackson_preset: passes until the last step settles, at most ten. */
    method Preset()
      requires Valid() && kern.dvi != 0.0
      modifies this`steps
      ensures Valid() && Now() == Passes(old(Now()), kern.order, kern.dvi, calcVd2, PASSES)
      ensures exists n :: EndsAfter(old(Now()), kern.order, kern.dvi, calcVd2, n, 10)
                          && Now() == Iterated(old(Now()), kern.order, kern.dvi, calcVd2, n)
    {
      hide Pass, Settled, EndsAfter, Iterated;
      ghost var start := Now();
      var ccount, cflag := 0, true;
      while ccount < PASSES && cflag
        invariant Valid() && 0 <= ccount <= PASSES
        invariant Passes(start, kern.order, kern.dvi, calcVd2, PASSES) ==
                  if cflag then Passes(Now(), kern.order, kern.dvi, calcVd2, PASSES - ccount) else Now()
        decreases PASSES - ccount
      {
        cflag := PassOnce();
        ccount := ccount + 1;
      }
      ghost var n := PassesEnd(start, kern.order, kern.dvi, calcVd2, PASSES);
    }

    /** The loop over the axes that predicts the step to come. */
    method Predict() returns (newvd0: Vector)
      requires Valid()
      modifies this`steps
      ensures Valid() && |steps| == |old(steps)|
      ensures newvd0 == Positions(PredictedSteps(old(Now()), kern.order, kern.dvi))
      ensures forall k | 0 <= k < |steps| ::
                steps[k] == old(steps)[k][kern.order + 1 := Predicted(old(steps)[k], kern.order, kern.dvi)]
    {
      hide Dot;
      var order := kern.order;
      ghost var before: seq<Axis> := steps;
      newvd0 := [];
      for j := 0 to |steps|
        invariant |steps| == |before| && |newvd0| == j && Valid()
        invariant forall i | 0 <= i < j :: newvd0[i] == Predicted(before[i], order, kern.dvi).vd0
        invariant forall i | 0 <= i < j :: steps[i] == before[i][order + 1 := Predicted(before[i], order, kern.dvi)]
        invariant forall i | j <= i < |steps| :: steps[i] == before[i]
      {
        var axis := steps[j];
        var last, next := axis[order], axis[order + 1];
        var ss := last.ss + last.s + last.vd2 / 2.0;
        var sb := Weighted(next.b, axis, order);
        var sa := Weighted(next.a, axis, order);
        next := next.(ss := ss, sa := sa, sb := sb);
        next := next.(vd1 := kern.dvi * (last.s + last.vd2 / 2.0 + next.sb));
        next := next.(vd0 := kern.dvi * kern.dvi * (next.ss + next.sa));
        assert next == Predicted(before[j], order, kern.dvi);
        steps := steps[j := axis[order + 1 := next]];
        newvd0 := newvd0 + [next.vd0];
      }
    }

    /** The loop over the axes that completes the step predicted and moves all steps down. */
    method Advance(newvd2: Vector)
      requires Valid() && |newvd2| == |steps|
      modifies this`steps
      ensures Valid() && |steps| == |old(steps)|
      ensures forall k | 0 <= k < |steps| :: steps[k] ==
                NextAxis(old(steps)[k], kern.order, old(steps)[k][kern.order + 1], newvd2[k])
    {
      var order := kern.order;
      ghost var before: seq<Axis> := steps;
      for j := 0 to |steps|
        invariant |steps| == |before| && Valid()
        invariant forall i | 0 <= i < j :: steps[i] == NextAxis(before[i], order, before[i][order + 1], newvd2[i])
        invariant forall i | j <= i < |steps| :: steps[i] == before[i]
      {
        var axis := steps[j];
        var last, next := axis[order], axis[order + 1];
        next := next.(vd2 := newvd2[j]);
        next := next.(s := last.s + (last.vd2 + next.vd2) / 2.0);
        axis := MoveDown(axis[order + 1 := next], order);
        steps := steps[j := axis];
      }
    }

    method OneChunk()
      requires Valid()
      modifies this`vi, this`steps
      ensures Valid() && Now() == Chunk(old(Now()), kern.order, kern.dvi, calcVd2)
    {
      hide Predicted, Moved;
      var order := kern.order;
      ghost var start := Now();
      vi := vi[order + 1 := vi[order] + kern.dvi];
      var newvd0 := Predict();
      ghost var predicted: seq<Axis> := steps;
      var newvd2 := calcVd2(vi[order + 1], newvd0);
      Advance(newvd2);
      vi := MoveDown(vi, order);
      ghost var next := Chunk(start, order, kern.dvi, calcVd2);
      forall k | 0 <= k < |steps| ensures steps[k] == next.steps[k] {
        SameNext(start.steps[k], predicted[k], order, Predicted(start.steps[k], order, kern.dvi), newvd2[k]);
      }
    }

    /** gauss_jackson_extrapolate: as many steps as bring the middle one nearest to the target. */
    method Extrapolate(target: real)
      requires Valid() && kern.dvi != 0.0
      requires -2147483649.0 < 0.5 + (target - vi[kern.order / 2]) / kern.dvi < 2147483648.0
      modifies this`vi, this`steps
      ensures Valid()
      ensures Now() == Chunks(old(Now()), kern.order, kern.dvi, calcVd2,
                              ChunkCount(target - old(vi)[kern.order / 2], kern.dvi))
    {
      hide Chunk;
      ghost var start := Now();
      var chunks := Truncate(0.5 + (target - vi[kern.order / 2]) / kern.dvi);
      var i := 0;
      while i < chunks
        invariant Valid() && 0 <= i && (i <= chunks || i == 0)
        invariant Now() == Chunks(start, kern.order, kern.dvi, calcVd2, i)
      {
        OneChunk();
        i := i + 1;
      }
    }
  }
}
