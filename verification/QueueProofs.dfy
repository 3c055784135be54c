/** What holds of a pass, and of every run of the command queue. */
module QueueProofs {
  import opened Events
  import opened QueueSpec

  // ---------- choosing from a sequence, order kept ----------

  /** The elements of s at which mask is set. */
  function Chosen<T>(s: seq<T>, mask: seq<bool>): seq<T>
    requires |s| == |mask|
  {
    if s == [] then [] else (if mask[0] then [s[0]] else []) + Chosen(s[1..], mask[1..])
  }

  function Count(mask: seq<bool>): nat
  {
    if mask == [] then 0 else (if mask[0] then 1 else 0) + Count(mask[1..])
  }

  /** The position of the i-th mark in mask, counted from 0. */
  function Position(mask: seq<bool>, i: nat): (p: nat)
    requires i < Count(mask)
    ensures p < |mask| && mask[p]
    decreases mask
  {
    if !mask[0] then 1 + Position(mask[1..], i)
    else if i == 0 then 0
    else 1 + Position(mask[1..], i - 1)
  }

  lemma {:induction false} PositionsAscend(mask: seq<bool>, i: nat, j: nat)
    requires i < j < Count(mask)
    ensures Position(mask, i) < Position(mask, j)
    decreases mask
  {
    if !mask[0] {
      PositionsAscend(mask[1..], i, j);
    } else if i > 0 {
      PositionsAscend(mask[1..], i - 1, j - 1);
    }
  }

  /** Which mark the one at position k is. */
  lemma {:induction false} MarkAt(mask: seq<bool>, k: nat) returns (i: nat)
    requires k < |mask| && mask[k]
    ensures i < Count(mask) && Position(mask, i) == k
  {
    if k == 0 {
      i := 0;
    } else {
      var j := MarkAt(mask[1..], k - 1);
      i := if mask[0] then j + 1 else j;
    }
  }

  lemma {:induction false} ChosenCount<T>(s: seq<T>, mask: seq<bool>)
    requires |s| == |mask|
    ensures |Chosen(s, mask)| == Count(mask)
  {
    if s != [] { ChosenCount(s[1..], mask[1..]); }
  }

  lemma {:induction false} ChosenAt<T>(s: seq<T>, mask: seq<bool>, i: nat)
    requires |s| == |mask| && i < Count(mask)
    ensures i < |Chosen(s, mask)| && Chosen(s, mask)[i] == s[Position(mask, i)]
    decreases mask
  {
    if !mask[0] {
      ChosenAt(s[1..], mask[1..], i);
    } else if i > 0 {
      ChosenAt(s[1..], mask[1..], i - 1);
    }
  }

  lemma {:induction false} ChosenAreAtPositions<T>(s: seq<T>, mask: seq<bool>)
    requires |s| == |mask|
    ensures |Chosen(s, mask)| == Count(mask)
    ensures forall i | 0 <= i < Count(mask) :: Chosen(s, mask)[i] == s[Position(mask, i)]
  {
    hide Chosen, Count, Position;
    ChosenCount(s, mask);
    forall i | 0 <= i < Count(mask) ensures Chosen(s, mask)[i] == s[Position(mask, i)] {
      ChosenAt(s, mask, i);
    }
  }

  lemma {:induction false} AllChosen<T>(s: seq<T>, mask: seq<bool>)
    requires |s| == |mask| && forall k | 0 <= k < |s| :: mask[k]
    ensures Chosen(s, mask) == s
  {
    if s != [] { AllChosen(s[1..], mask[1..]); }
  }

  lemma {:induction false} NoneChosen<T>(s: seq<T>, mask: seq<bool>)
    requires |s| == |mask| && forall k | 0 <= k < |s| :: !mask[k]
    ensures Chosen(s, mask) == []
  {
    if s != [] { NoneChosen(s[1..], mask[1..]); }
  }

  // ---------- a pass by position ----------

  function Records(q: seq<Event>, env: seq<Look>): (r: seq<Event>)
    requires |q| <= |env|
    ensures |r| == |q|
  {
    seq(|q|, k requires 0 <= k < |q| => Record(q[k], env[k]))
  }

  /** What is left of each event, if it is left at all: those behind the stop are not looked at. */
  function Lefts(q: seq<Event>, env: seq<Look>): (r: seq<Event>)
    requires |q| <= |env|
    ensures |r| == |q|
    ensures forall k | 0 <= k < |q| :: r[k].name == q[k].name && r[k].mjd == q[k].mjd
  {
    seq(|q|, k requires 0 <= k < |q| => if k <= Stop(q, env) then Left(q[k], env[k]) else q[k])
  }

  function RunMask(q: seq<Event>, env: seq<Look>): (r: seq<bool>)
    requires |q| <= |env|
    ensures |r| == |q|
  {
    seq(|q|, k requires 0 <= k < |q| => k <= Stop(q, env) && IsRun(Judge(q[k], env[k])))
  }

  function GoneMask(q: seq<Event>, env: seq<Look>): (r: seq<bool>)
    requires |q| <= |env|
    ensures |r| == |q|
  {
    seq(|q|, k requires 0 <= k < |q| => k <= Stop(q, env) && Removes(Judge(q[k], env[k])))
  }

  function KeepMask(q: seq<Event>, env: seq<Look>): (r: seq<bool>)
    requires |q| <= |env|
    ensures |r| == |q|
  {
    seq(|q|, k requires 0 <= k < |q| => !(k <= Stop(q, env) && Removes(Judge(q[k], env[k]))))
  }

  /** A pass runs exactly the events that RunMask marks, in queue order; WhoRuns tells which those are. */
  lemma {:induction false} PassRuns(q: seq<Event>, env: seq<Look>, date: real)
    requires |q| <= |env|
    ensures RunPass(q, env, date).ran == Chosen(Records(q, env), RunMask(q, env))
    decreases q
  {
    hide Judge, Record, Left, Handed;
    if q != [] {
      var rest := q[1..];
      assert Records(q, env)[1..] == Records(rest, env[1..]);
      if Ends(Judge(q[0], env[0])) {
        NoneChosen(Records(q, env)[1..], RunMask(q, env)[1..]);
      } else {
        assert RunMask(q, env)[1..] == RunMask(rest, env[1..]);
        PassRuns(rest, env[1..], NextDate(q[0], env[0], date));
      }
    }
  }

  /** The event at position k fires: it is due, not solo, conditional, its condition is true, and it is not
      a repeating event that has fired already. */
  ghost predicate FiresAt(q: seq<Event>, env: seq<Look>, k: nat)
    requires k < |q| <= |env|
  {
    var e, look := q[k], env[k];
    && !e.IsSolo() && e.IsReady(look.now)
    && e.IsConditional() && e.ConditionTrue(look.holds) && (e.IsRepeat() ==> !e.IsAlreadyRun())
  }

  /** No event before position k fires. */
  ghost predicate Reaches(q: seq<Event>, env: seq<Look>, k: nat)
    requires k < |q| <= |env|
  {
    forall j | 0 <= j < k :: !FiresAt(q, env, j)
  }

  lemma {:induction false} ReachesExactly(q: seq<Event>, env: seq<Look>, k: nat)
    requires k < |q| <= |env|
    ensures Reaches(q, env, k) <==> k <= Stop(q, env)
  {
    forall j | 0 <= j < |q| ensures FiresAt(q, env, j) <==> Ends(Judge(q[j], env[j])) {
    }
    if Stop(q, env) < k {
      assert FiresAt(q, env, Stop(q, env));
    }
  }

  /** Which events run: those that are due, not solo and either unconditional or fire, unless an event
      before them fires. */
  lemma {:induction false} WhoRuns(q: seq<Event>, env: seq<Look>, k: nat)
    requires k < |q| <= |env|
    ensures RunMask(q, env)[k] <==>
      && !q[k].IsSolo() && q[k].IsReady(env[k].now) && (q[k].IsConditional() ==> FiresAt(q, env, k))
      && Reaches(q, env, k)
  {
    ReachesExactly(q, env, k);
  }

  /** A pass leaves every other event, in queue order. */
  lemma {:induction false} PassLeaves(q: seq<Event>, env: seq<Look>, date: real)
    requires |q| <= |env|
    ensures RunPass(q, env, date).left == Chosen(Lefts(q, env), KeepMask(q, env))
    decreases q
  {
    hide Judge, Record, Left, Handed;
    if q != [] {
      var rest := q[1..];
      if Ends(Judge(q[0], env[0])) {
        assert Lefts(q, env)[1..] == rest;
        AllChosen(rest, KeepMask(q, env)[1..]);
      } else {
        assert Lefts(q, env)[1..] == Lefts(rest, env[1..]);
        assert KeepMask(q, env)[1..] == KeepMask(rest, env[1..]);
        PassLeaves(rest, env[1..], NextDate(q[0], env[0], date));
      }
    }
  }

  /** Nothing is lost or made: what ran is what left the queue, in order, then the repeating event that
      ended the pass, if one did. */
  lemma {:induction false} RanIsGone(q: seq<Event>, env: seq<Look>, date: real)
    requires |q| <= |env|
    ensures var stop := Stop(q, env);
      RunPass(q, env, date).ran == Chosen(Records(q, env), GoneMask(q, env))
        + if stop < |q| && Judge(q[stop], env[stop]).Repeats? then [Record(q[stop], env[stop])] else []
    decreases q
  {
    hide Judge, Record, Left, Handed;
    if q != [] {
      var rest := q[1..];
      assert Records(q, env)[1..] == Records(rest, env[1..]);
      if Ends(Judge(q[0], env[0])) {
        NoneChosen(Records(q, env)[1..], GoneMask(q, env)[1..]);
      } else {
        assert GoneMask(q, env)[1..] == GoneMask(rest, env[1..]);
        RanIsGone(rest, env[1..], NextDate(q[0], env[0], date));
      }
    }
  }

  lemma {:induction false} RecordKeeps(e: Event, look: Look)
    ensures Record(e, look).name == e.name && Record(e, look).kind == e.kind && Record(e, look).mjd == e.mjd
    ensures Record(e, look).IsConditional() == e.IsConditional() && Record(e, look).IsSolo() == e.IsSolo()
    ensures Handed(e, look).name == e.name
  {
  }

  ghost predicate OnlyLastIsConditional(ran: seq<Event>)
  {
    forall k | 0 <= k < |ran| - 1 :: !ran[k].IsConditional()
  }

  /** At most one conditional event runs in a pass, and it is the last to run. */
  lemma {:induction false} ConditionalRunsLast(q: seq<Event>, env: seq<Look>, date: real)
    requires |q| <= |env|
    ensures OnlyLastIsConditional(RunPass(q, env, date).ran)
    decreases q
  {
    hide Record, Left, Handed;
    if q != [] {
      RecordKeeps(q[0], env[0]);
      if !Ends(Judge(q[0], env[0])) {
        var next := NextDate(q[0], env[0], date);
        ConditionalRunsLast(q[1..], env[1..], next);
        var rest := RunPass(q[1..], env[1..], next).ran;
        assert RunPass(q, env, date).ran
            == if IsRun(Judge(q[0], env[0])) then [Record(q[0], env[0])] + rest else rest;
      }
    }
  }

  function Executables(q: seq<Event>): seq<Event>
  {
    if q == [] then [] else (if q[0].IsExecutable() then [q[0]] else []) + Executables(q[1..])
  }

  ghost predicate Follows(sent: seq<Handover>, executed: seq<Event>, date: real)
  {
    && |sent| == |executed|
    && (forall k | 0 <= k < |sent| :: sent[k].event.name == executed[k].name)
    && forall k | 0 <= k < |sent| :: sent[k].date == date + k as real / 864000.0
  }

  lemma {:induction false} FollowsCons(sent: seq<Handover>, executed: seq<Event>, date: real, h: Handover, e: Event)
    requires Follows(sent, executed, date + LOG_STEP) && h.date == date && h.event.name == e.name
    ensures Follows([h] + sent, [e] + executed, date)
  {
  }

  /** What is handed over is what ran and can be executed, in order. Its dates lie a tenth of a second
      apart, so that no two handovers of a pass share the name of a log file. */
  lemma {:induction false} Handovers(q: seq<Event>, env: seq<Look>, date: real)
    requires |q| <= |env|
    ensures var pass := RunPass(q, env, date); Follows(pass.sent, Executables(pass.ran), date)
    decreases q
  {
    hide Judge, Record, Left, Handed, Follows;
    if q == [] {
      NothingFollows(date);
    } else {
      var e, look := q[0], env[0];
      RecordKeeps(e, look);
      var next := NextDate(e, look, date);
      var rest := if Ends(Judge(e, look)) then Pass(q[1..], [], []) else RunPass(q[1..], env[1..], next);
      if Ends(Judge(e, look)) {
        NothingFollows(next);
      } else {
        Handovers(q[1..], env[1..], next);
      }
      ExecutablesCons(Record(e, look), rest.ran);
      assert RunPass(q, env, date).ran == if IsRun(Judge(e, look)) then [Record(e, look)] + rest.ran else rest.ran;
      if IsHandedOver(e, look) {
        var first := Handover(Handed(e, look), date);
        FollowsCons(rest.sent, Executables(rest.ran), date, first, Record(e, look));
        assert RunPass(q, env, date).sent == [first] + rest.sent;
      } else {
        assert RunPass(q, env, date).sent == rest.sent;
      }
    }
  }

  lemma {:induction false} NothingFollows(date: real)
    ensures Follows([], Executables([]), date)
  {
  }

  lemma {:induction false} ExecutablesCons(e: Event, q: seq<Event>)
    ensures Executables([e] + q) == if e.IsExecutable() then [e] + Executables(q) else Executables(q)
  {
    assert ([e] + q)[1..] == q;
  }

  // ---------- what a pass sends and changes ----------

  /** An event that is marked can be executed. */
  ghost predicate SomeExecutable(q: seq<Event>, mask: seq<bool>)
    requires |q| == |mask|
  {
    exists k :: 0 <= k < |q| && mask[k] && q[k].IsExecutable()
  }

  /** Something is handed over exactly when an event that runs can be executed. */
  lemma {:induction false} SendsExecutables(q: seq<Event>, env: seq<Look>, date: real)
    requires |q| <= |env|
    ensures RunPass(q, env, date).sent != [] <==> SomeExecutable(q, RunMask(q, env))
    decreases q
  {
    hide Judge, Record, Left, Handed;
    if q != [] {
      var rest := q[1..];
      if Ends(Judge(q[0], env[0])) {
        assert forall k | 1 <= k < |q| :: !RunMask(q, env)[k];
      } else {
        assert RunMask(q, env)[1..] == RunMask(rest, env[1..]);
        SendsExecutables(rest, env[1..], NextDate(q[0], env[0], date));
        ExistsCons(q, RunMask(q, env));
      }
    }
  }

  lemma {:induction false} ExistsCons(q: seq<Event>, mask: seq<bool>)
    requires |q| == |mask| >= 1
    ensures SomeExecutable(q, mask) <==> (mask[0] && q[0].IsExecutable()) || SomeExecutable(q[1..], mask[1..])
  {
    if k :| 0 <= k < |q[1..]| && mask[1..][k] && q[1..][k].IsExecutable() {
      assert mask[k + 1] && q[k + 1].IsExecutable();
    }
    if k :| 0 < k < |q| && mask[k] && q[k].IsExecutable() {
      assert mask[1..][k - 1] && q[1..][k - 1].IsExecutable();
    }
  }

  /** A pass that reaches the event takes it out or changes it: it is due and not solo, and it is
      unconditional, or its equation holds, or it is marked as true. */
  predicate Touches(e: Event, look: Look)
  {
    !e.IsSolo() && e.IsReady(look.now) && (e.IsConditional() ==> look.holds || e.IsAlreadyRun())
  }

  lemma {:induction false} TouchesExactly(e: Event, look: Look)
    ensures Touches(e, look) <==> Removes(Judge(e, look)) || Left(e, look) != e
  {
    if e.IsConditional() && look.holds {
      assert e.Counted(true).trueCount != e.trueCount;
    }
    if Judge(e, look).Reset? {
      if e.IsAlreadyRun() {
        assert !Left(e, look).IsAlreadyRun();
      } else {
        assert e.flag[FLAG_TRUE := false] == e.flag;
      }
    }
  }

  ghost predicate TouchesAt(q: seq<Event>, env: seq<Look>, k: nat)
    requires |q| <= |env|
  {
    k < |q| && Reaches(q, env, k) && Touches(q[k], env[k])
  }

  /** A pass leaves the queue as it was exactly when it touches none of the events it reaches. */
  lemma {:induction false} ChangesExactly(q: seq<Event>, env: seq<Look>, date: real)
    requires |q| <= |env|
    ensures RunPass(q, env, date).left != q <==> exists k :: TouchesAt(q, env, k)
  {
    hide RunPass, Judge, Left, Touches, Reaches, Chosen, Count, Position;
    PassLeaves(q, env, date);
    var lefts, keep := Lefts(q, env), KeepMask(q, env);
    forall k | 0 <= k < |q| ensures TouchesAt(q, env, k) <==> !keep[k] || lefts[k] != q[k] {
      TouchesExactly(q[k], env[k]);
      ReachesExactly(q, env, k);
    }
    if forall k | 0 <= k < |q| :: keep[k] {
      AllChosen(lefts, keep);
    } else {
      var k :| 0 <= k < |q| && !keep[k];
      ChosenCount(lefts, keep);
      CountLess(keep, k);
      assert TouchesAt(q, env, k);
    }
    if k: nat :| k < |q| && TouchesAt(q, env, k) && keep[k] {
      assert lefts[k] != q[k];
    }
  }

  lemma {:induction false} CountLess(mask: seq<bool>, k: nat)
    requires k < |mask| && !mask[k]
    ensures Count(mask) < |mask|
  {
    CountAtMost(mask[1..]);
    if k > 0 { CountLess(mask[1..], k - 1); }
  }

  lemma {:induction false} CountAtMost(mask: seq<bool>)
    ensures Count(mask) <= |mask|
  {
    if mask != [] { CountAtMost(mask[1..]); }
  }

  // ---------- unique names and time order ----------

  lemma {:induction false} ChosenKeepsNamesUnique(q: seq<Event>, mask: seq<bool>)
    requires |q| == |mask| && UniqueNames(q)
    ensures UniqueNames(Chosen(q, mask))
  {
    hide Chosen, Count, Position;
    ChosenAreAtPositions(q, mask);
    forall i, j | 0 <= i < j < Count(mask) ensures Chosen(q, mask)[i].name != Chosen(q, mask)[j].name {
      PositionsAscend(mask, i, j);
    }
  }

  lemma {:induction false} ChosenKeepsOrder(q: seq<Event>, mask: seq<bool>, time: real -> string)
    requires |q| == |mask| && InOrder(q, time)
    ensures InOrder(Chosen(q, mask), time)
  {
    hide Chosen, Count, Position, Before;
    ChosenAreAtPositions(q, mask);
    forall i, j | 0 <= i < j < Count(mask)
      ensures !Before(time(Chosen(q, mask)[j].mjd), time(Chosen(q, mask)[i].mjd))
    {
      PositionsAscend(mask, i, j);
    }
  }

  function OthersMask(q: seq<Event>, e: Event): (r: seq<bool>)
    ensures |r| == |q|
  {
    seq(|q|, k requires 0 <= k < |q| => !e.Same(q[k]))
  }

  lemma {:induction false} OthersMaskTail(q: seq<Event>, e: Event)
    requires q != []
    ensures OthersMask(q, e)[0] == !e.Same(q[0]) && OthersMask(q, e)[1..] == OthersMask(q[1..], e)
  {
    hide Event.Same;
  }

  lemma {:induction false} DeletedIsChosen(q: seq<Event>, e: Event)
    ensures Deleted(q, e) == Chosen(q, OthersMask(q, e))
  {
    hide Event.Same, OthersMask;
    if q != [] {
      DeletedIsChosen(q[1..], e);
      OthersMaskTail(q, e);
    }
  }

  /** Two events are equal if they are the same but for time-out and counter. */
  lemma {:induction false} SameExactly(a: Event, b: Event)
    ensures a.Same(b) <==> a.(timeout := b.timeout, trueCount := b.trueCount) == b
  {
  }

  /** A deletion keeps the other events, in order. */
  lemma {:induction false} DeletedAtPositions(q: seq<Event>, position: nat)
    requires position < |q|
    ensures var r := DeletedAt(q, position);
      |r| == |q| - 1 && forall k | 0 <= k < |r| :: r[k] == if k < position then q[k] else q[k + 1]
  {
  }

  ghost predicate Holds(q: seq<Event>, e: Event)
  {
    exists k :: 0 <= k < |q| && e.Same(q[k])
  }

  /** With unique names a deletion takes out one event at most. */
  lemma {:induction false} DeletesAtMostOne(q: seq<Event>, e: Event)
    requires UniqueNames(q)
    ensures |Deleted(q, e)| == |q| - if Holds(q, e) then 1 else 0
  {
    if q != [] {
      if e.Same(q[0]) {
        NothingToDelete(q[1..], e);
      } else {
        DeletesAtMostOne(q[1..], e);
        assert Holds(q[1..], e) ==> Holds(q, e);
      }
    }
  }

  lemma {:induction false} NothingToDelete(q: seq<Event>, e: Event)
    requires forall k | 0 <= k < |q| :: !e.Same(q[k])
    ensures Deleted(q, e) == q
  {
    if q != [] { NothingToDelete(q[1..], e); }
  }

  lemma {:induction false} AddedAt(q: seq<Event>, e: Event)
    ensures Names(q, e.name) ==> |Added(q, e)| == |q|
    ensures !Names(q, e.name) ==> Added(q, e) == q + [e]
    ensures forall k | 0 <= k < |q| :: Added(q, e)[k] == q[k] || q[k].name == e.name == Added(q, e)[k].name
    ensures |q| <= |Added(q, e)|
  {
    if q != [] && q[0].name != e.name {
      AddedAt(q[1..], e);
      assert Names(q[1..], e.name) ==> Names(q, e.name);
    }
  }
}
