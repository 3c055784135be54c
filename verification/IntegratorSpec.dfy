/** gauss_jackson_preset and gauss_jackson_extrapolate of mathlib.cpp as functions on the state of an instance. */
module IntegratorSpec {
  import opened Vectors
  import opened IntegratorSums

  /** One step of one axis: values, weights and sums. */
  datatype GjStep = GjStep(vd0: real, vd1: real, vd2: real, a: Vector, b: Vector,
                           s: real, ss: real, sa: real, sb: real)

  type Axis = seq<GjStep>

  /** The times of the steps, and order + 2 steps for every axis. */
  datatype State = State(vi: seq<real>, steps: seq<Axis>)

  /** calc_vd2: the second derivatives of all axes at a time and a position. */
  type Force = f: (real, Vector) -> Vector | forall t: real, v: Vector :: |f(t, v)| == |v| witness (t, v) => v

  predicate Shaped(axis: Axis, order: nat)
  {
    |axis| == order + 2 && forall j | 0 <= j < |axis| :: |axis[j].a| == |axis[j].b| == order + 1
  }

  predicate AxesShaped(steps: seq<Axis>, order: nat)
  {
    forall k {:trigger steps[k]} | 0 <= k < |steps| :: Shaped(steps[k], order)
  }

  predicate AllShaped(state: State, order: nat)
  {
    |state.vi| == order + 2 && AxesShaped(state.steps, order)
  }

  function SecondDerivatives(axis: Axis, order: nat): (f: Vector)
    requires Shaped(axis, order)
    ensures |f| == order + 1 && forall j | 0 <= j <= order :: f[j] == axis[j].vd2
  {
    seq(order + 1, j requires 0 <= j <= order => axis[j].vd2)
  }

  // ---------- a new instance ----------

  /** The steps of a new axis. */
  function NewSteps(order: nat): (axis: Axis)
    ensures Shaped(axis, order)
    ensures forall j | 0 <= j < |axis| ::
      axis[j] == GjStep(0.0, 0.0, 0.0, AWeights(order, j), BWeights(order, j), 0.0, 0.0, 0.0, 0.0)
  {
    seq(order + 2, j requires 0 <= j < order + 2 =>
                     GjStep(0.0, 0.0, 0.0, AWeights(order, j), BWeights(order, j), 0.0, 0.0, 0.0, 0.0))
  }

  function WithValues(axis: Axis, j: nat, vd0: real, vd1: real, vd2: real): (r: Axis)
    requires j < |axis|
    ensures |r| == |axis|
  {
    axis[j := axis[j].(vd0 := vd0, vd1 := vd1, vd2 := vd2)]
  }

  function NewState(order: nat, axes: nat): (state: State)
    ensures AllShaped(state, order) && |state.steps| == axes
    ensures forall i | 0 <= i < axes :: state.steps[i] == NewSteps(order)
  {
    State(ZeroVector(order + 2), seq(axes, i => NewSteps(order)))
  }

  /** Step j of all axes set. */
  function SetAt(state: State, order: nat, j: nat, t: real, vd0: Vector, vd1: Vector, vd2: Vector): (r: State)
    requires AllShaped(state, order) && j < order + 2 && |vd0| == |vd1| == |vd2| == |state.steps|
    ensures AllShaped(r, order) && |r.steps| == |state.steps|
    ensures forall i | 0 <= i < |r.steps| :: r.steps[i] == WithValues(state.steps[i], j, vd0[i], vd1[i], vd2[i])
  {
    State(state.vi[j := t],
          seq(|state.steps|, i requires 0 <= i < |state.steps| =>
                               WithValues(state.steps[i], j, vd0[i], vd1[i], vd2[i])))
  }

  // ---------- one step of the extrapolation ----------

  /** The step to come, but for what the force adds. */
  function Predicted(axis: Axis, order: nat, dvi: real): (p: GjStep)
    requires Shaped(axis, order)
    ensures p.a == axis[order + 1].a && p.b == axis[order + 1].b
  {
    var last, next, f := axis[order], axis[order + 1], SecondDerivatives(axis, order);
    var sa, sb, ss := Dot(next.a, f), Dot(next.b, f), last.ss + last.s + last.vd2 / 2.0;
    next.(vd0 := dvi * dvi * (ss + sa), vd1 := dvi * (last.s + last.vd2 / 2.0 + sb), ss := ss, sa := sa, sb := sb)
  }

  function Completed(next: GjStep, last: GjStep, vd2: real): GjStep
  {
    next.(vd2 := vd2, s := last.s + (last.vd2 + vd2) / 2.0)
  }

  /** Everything moves down by one; the last entry stays as well. */
  function Moved<T>(v: seq<T>): (r: seq<T>)
    requires v != []
    ensures |r| == |v|
  {
    v[1..] + [v[|v| - 1]]
  }

  function Positions(steps: seq<GjStep>): (v: Vector)
    ensures |v| == |steps| && forall k | 0 <= k < |v| :: v[k] == steps[k].vd0
  {
    seq(|steps|, k requires 0 <= k < |steps| => steps[k].vd0)
  }

  function PredictedSteps(state: State, order: nat, dvi: real): (p: seq<GjStep>)
    requires AllShaped(state, order)
    ensures |p| == |state.steps| && forall k | 0 <= k < |p| :: p[k] == Predicted(state.steps[k], order, dvi)
  {
    seq(|state.steps|, k requires 0 <= k < |state.steps| => Predicted(state.steps[k], order, dvi))
  }

  function NextAxis(axis: Axis, order: nat, next: GjStep, vd2: real): (r: Axis)
    requires Shaped(axis, order)
    ensures |r| == order + 2
  {
    Moved(axis[order + 1 := Completed(next, axis[order], vd2)])
  }

  /** One step for all axes. */
  function Chunk(state: State, order: nat, dvi: real, force: Force): (r: State)
    requires AllShaped(state, order)
    ensures AllShaped(r, order) && |r.steps| == |state.steps|
  {
    var t := state.vi[order] + dvi;
    var next := PredictedSteps(state, order, dvi);
    var vd2 := force(t, Positions(next));
    State(Moved(state.vi[order + 1 := t]),
          seq(|state.steps|, k requires 0 <= k < |state.steps| => NextAxis(state.steps[k], order, next[k], vd2[k])))
  }

  function Chunks(state: State, order: nat, dvi: real, force: Force, n: nat): (r: State)
    requires AllShaped(state, order)
    ensures AllShaped(r, order) && |r.steps| == |state.steps|
  {
    if n == 0 then state else Chunk(Chunks(state, order, dvi, force, n - 1), order, dvi, force)
  }

  // ---------- one pass of the preset ----------

  /** The sums s, outwards from the middle step. */
  function FirstSumAt(axis: Axis, order: nat, dvi: real, j: nat): real
    requires Shaped(axis, order) && dvi != 0.0 && j <= 2 * (order / 2)
    decreases if j < order / 2 then order / 2 - j else j - order / 2
  {
    var half := order / 2;
    if j == half then axis[half].vd1 / dvi - Dot(axis[half].b, SecondDerivatives(axis, order))
    else if j > half then FirstSumAt(axis, order, dvi, j - 1) + (axis[j].vd2 + axis[j - 1].vd2) / 2.0
    else FirstSumAt(axis, order, dvi, j + 1) - (axis[j].vd2 + axis[j + 1].vd2) / 2.0
  }

  lemma {:induction false} FirstSumRule(axis: Axis, order: nat, dvi: real, j: nat)
    requires Shaped(axis, order) && dvi != 0.0 && j <= 2 * (order / 2)
    ensures var half := order / 2;
            FirstSumAt(axis, order, dvi, j) ==
            if j == half then axis[half].vd1 / dvi - Dot(axis[half].b, SecondDerivatives(axis, order))
            else if j > half then FirstSumAt(axis, order, dvi, j - 1) + (axis[j].vd2 + axis[j - 1].vd2) / 2.0
            else FirstSumAt(axis, order, dvi, j + 1) - (axis[j].vd2 + axis[j + 1].vd2) / 2.0
  {
    hide Dot;
  }

  /** The sums ss, outwards from the middle step. */
  function SecondSumAt(axis: Axis, order: nat, dvi: real, j: nat): real
    requires Shaped(axis, order) && dvi != 0.0 && j <= 2 * (order / 2)
    decreases if j < order / 2 then order / 2 - j else j - order / 2
  {
    var half := order / 2;
    if j == half then axis[half].vd0 / (dvi * dvi) - Dot(axis[half].a, SecondDerivatives(axis, order))
    else if j > half then
      SecondSumAt(axis, order, dvi, j - 1) + FirstSumAt(axis, order, dvi, j - 1) + axis[j - 1].vd2 / 2.0
    else
      SecondSumAt(axis, order, dvi, j + 1) - FirstSumAt(axis, order, dvi, j + 1) + axis[j + 1].vd2 / 2.0
  }

  function SummedStep(axis: Axis, order: nat, dvi: real, j: nat): GjStep
    requires Shaped(axis, order) && dvi != 0.0 && j < order + 2
  {
    var f := SecondDerivatives(axis, order);
    var sums := if j <= 2 * (order / 2)
                then axis[j].(s := FirstSumAt(axis, order, dvi, j), ss := SecondSumAt(axis, order, dvi, j))
                else axis[j];
    if j == order / 2 || j == order + 1 then sums else sums.(sa := Dot(axis[j].a, f), sb := Dot(axis[j].b, f))
  }

  /** All sums of one axis: of an odd order, s and ss of the step `order` are left as they are. */
  function Summed(axis: Axis, order: nat, dvi: real): (r: Axis)
    requires Shaped(axis, order) && dvi != 0.0
    ensures Shaped(r, order) && forall j | 0 <= j < |r| :: r[j] == SummedStep(axis, order, dvi, j)
  {
    seq(order + 2, j requires 0 <= j < order + 2 => SummedStep(axis, order, dvi, j))
  }

  /** The steps that a pass corrects: all around the middle one. */
  predicate Corrected(order: nat, j: nat)
  {
    j <= 2 * (order / 2) && j != order / 2
  }

  /** Step j with position and velocity by its sums. */
  function Placed(step: GjStep, dvi: real): GjStep
  {
    step.(vd1 := dvi * (step.s + step.sb), vd0 := dvi * dvi * (step.ss + step.sa))
  }

  function PlacedSteps(steps: seq<Axis>, order: nat, dvi: real, j: nat): (r: seq<GjStep>)
    requires j < order + 2 && AxesShaped(steps, order)
    ensures |r| == |steps| && forall k | 0 <= k < |r| :: r[k] == Placed(steps[k][j], dvi)
  {
    seq(|steps|, k requires 0 <= k < |steps| => Placed(steps[k][j], dvi))
  }

  function SummedAxes(steps: seq<Axis>, order: nat, dvi: real): (r: seq<Axis>)
    requires dvi != 0.0 && AxesShaped(steps, order)
    ensures |r| == |steps| && forall k | 0 <= k < |r| :: r[k] == Summed(steps[k], order, dvi)
  {
    seq(|steps|, k requires 0 <= k < |steps| => Summed(steps[k], order, dvi))
  }

  /** Step j of axis k after the correction. */
  function CorrectedStep(state: State, order: nat, dvi: real, force: Force, k: nat, j: nat): (r: GjStep)
    requires AllShaped(state, order) && k < |state.steps| && j < order + 2
  {
    var placed := PlacedSteps(state.steps, order, dvi, j);
    if Corrected(order, j) then placed[k].(vd2 := force(state.vi[j], Positions(placed))[k]) else state.steps[k][j]
  }

  function CorrectedAxis(state: State, order: nat, dvi: real, force: Force, k: nat): (r: Axis)
    requires AllShaped(state, order) && k < |state.steps|
    ensures Shaped(r, order)
    ensures forall j | 0 <= j < |r| :: r[j] == CorrectedStep(state, order, dvi, force, k, j)
  {
    seq(order + 2, j requires 0 <= j < order + 2 => CorrectedStep(state, order, dvi, force, k, j))
  }

  function Pass(state: State, order: nat, dvi: real, force: Force): (r: State)
    requires AllShaped(state, order) && dvi != 0.0
    ensures AllShaped(r, order) && |r.steps| == |state.steps| && r.vi == state.vi
    ensures var summed := State(state.vi, SummedAxes(state.steps, order, dvi));
            forall k | 0 <= k < |r.steps| :: r.steps[k] == CorrectedAxis(summed, order, dvi, force, k)
  {
    var summed := State(state.vi, SummedAxes(state.steps, order, dvi));
    State(state.vi, seq(|state.steps|, k requires 0 <= k < |state.steps| =>
                                         CorrectedAxis(summed, order, dvi, force, k)))
  }

  const TOLERANCE := 0.00000000000001

  predicate Near(u: real, v: real)
  {
    -TOLERANCE <= u - v <= TOLERANCE
  }

  /** The flag is set anew for every step, so that only the last one corrected decides. */
  predicate Settled(before: seq<Axis>, after: seq<Axis>, order: nat)
    requires |before| == |after| && AxesShaped(before, order) && AxesShaped(after, order)
  {
    order >= 2 &&
    forall k | 0 <= k < |before| :: Near(before[k][2 * (order / 2)].vd2, after[k][2 * (order / 2)].vd2)
  }

  /** At most `left` passes, until the last step is settled. */
  function Passes(state: State, order: nat, dvi: real, force: Force, left: nat): (r: State)
    requires AllShaped(state, order) && dvi != 0.0
    ensures AllShaped(r, order) && |r.steps| == |state.steps| && r.vi == state.vi
    decreases left
  {
    if left == 0 then state
    else
      var next := Pass(state, order, dvi, force);
      if Settled(state.steps, next.steps, order) then next else Passes(next, order, dvi, force, left - 1)
  }

  const PASSES := 10

  /** n passes, whatever they come to. */
  function Iterated(state: State, order: nat, dvi: real, force: Force, n: nat): (r: State)
    requires AllShaped(state, order) && dvi != 0.0
    ensures AllShaped(r, order) && |r.steps| == |state.steps| && r.vi == state.vi
  {
    if n == 0 then state else Pass(Iterated(state, order, dvi, force, n - 1), order, dvi, force)
  }

  /** The last of the steps corrected moved by at most 1e-14 in every axis; with less than two steps beside the
      middle one there is none. */
  ghost predicate StoodStill(before: State, after: State, order: nat)
    requires AllShaped(before, order) && AllShaped(after, order) && |before.steps| == |after.steps|
  {
    order >= 2 &&
    forall k {:trigger before.steps[k]} | 0 <= k < |before.steps| ::
      var last := 2 * (order / 2);
      var moved := after.steps[k][last].vd2 - before.steps[k][last].vd2;
      -0.00000000000001 <= moved <= 0.00000000000001
  }

  /** The n-th pass is the first one to move nothing, or else the one that there may be at most. */
  ghost predicate EndsAfter(state: State, order: nat, dvi: real, force: Force, n: nat, most: nat)
    requires AllShaped(state, order) && dvi != 0.0
  {
    && 1 <= n <= most
    && (forall i | 1 <= i < n :: !StoodStill(Iterated(state, order, dvi, force, i - 1),
                                             Iterated(state, order, dvi, force, i), order))
    && (n == most ||
        StoodStill(Iterated(state, order, dvi, force, n - 1), Iterated(state, order, dvi, force, n), order))
  }

  lemma {:induction false} IteratedFirst(state: State, order: nat, dvi: real, force: Force, n: nat)
    requires AllShaped(state, order) && dvi != 0.0
    ensures Iterated(Pass(state, order, dvi, force), order, dvi, force, n) == Iterated(state, order, dvi, force, n + 1)
  {
    hide Pass;
    if n > 0 {
      IteratedFirst(state, order, dvi, force, n - 1);
    }
  }

  lemma {:induction false} SettledIsStill(before: State, after: State, order: nat)
    requires AllShaped(before, order) && AllShaped(after, order) && |before.steps| == |after.steps|
    ensures Settled(before.steps, after.steps, order) <==> StoodStill(before, after, order)
  {
  }

  lemma {:induction false} EndsLater(state: State, order: nat, dvi: real, force: Force, n: nat, most: nat)
    requires AllShaped(state, order) && dvi != 0.0
    requires !StoodStill(state, Pass(state, order, dvi, force), order)
    requires EndsAfter(Pass(state, order, dvi, force), order, dvi, force, n, most)
    ensures EndsAfter(state, order, dvi, force, n + 1, most + 1)
  {
    hide Pass, StoodStill;
    IteratedFirst(state, order, dvi, force, n - 1);
    IteratedFirst(state, order, dvi, force, n);
    forall i | 1 <= i < n + 1
      ensures !StoodStill(Iterated(state, order, dvi, force, i - 1), Iterated(state, order, dvi, force, i), order)
    {
      if i > 1 {
        IteratedFirst(state, order, dvi, force, i - 2);
        IteratedFirst(state, order, dvi, force, i - 1);
      } else {
        assert Iterated(state, order, dvi, force, 0) == state;
      }
    }
  }

  /** For every force and every state: plain passes, until one moves nothing, but at most so many. */
  lemma {:induction false} PassesEnd(state: State, order: nat, dvi: real, force: Force, most: nat) returns (n: nat)
    requires AllShaped(state, order) && dvi != 0.0 && most >= 1
    ensures EndsAfter(state, order, dvi, force, n, most)
    ensures Passes(state, order, dvi, force, most) == Iterated(state, order, dvi, force, n)
    decreases most
  {
    hide Pass, StoodStill, Settled;
    var next := Pass(state, order, dvi, force);
    SettledIsStill(state, next, order);
    assert Iterated(state, order, dvi, force, 0) == state && Iterated(state, order, dvi, force, 1) == next;
    if most == 1 || StoodStill(state, next, order) {
      n := 1;
      assert Passes(next, order, dvi, force, 0) == next;
    } else {
      var rest := PassesEnd(next, order, dvi, force, most - 1);
      n := rest + 1;
      EndsLater(state, order, dvi, force, rest, most - 1);
      IteratedFirst(state, order, dvi, force, rest);
    }
  }

  // ---------- the number of steps ----------

  /** (int32_t) of a double: towards zero. */
  function Truncate(x: real): int
  {
    if x >= 0.0 then x.Floor else -((-x).Floor)
  }

  /** The number of steps taken to cover a distance. */
  function ChunkCount(distance: real, dvi: real): nat
    requires dvi != 0.0
  {
    var chunks := Truncate(0.5 + distance / dvi);
    if chunks > 0 then chunks else 0
  }
}
