/** The condition counter and the other fields of a queued event, in a pass and over every run. */
module QueueCounter {
  import opened BitStrings
  import opened Events
  import opened QueueSpec
  import opened QueueProofs
  import opened QueueRuns
  import opened QueueSort

  // ---------- one event, by its fields and bits ----------

  /** The pass looks at the condition of the event: it is due, not solo and conditional. */
  predicate LooksAt(e: Event, now: real)
  {
    e.mjd <= now && !e.flag[19] && e.flag[16]
  }

  /** The count with this time reaches what the priority in bits 4 to 6 asks for. */
  predicate Enough(e: Event)
  {
    (e.trueCount + 1) % 0x1_0000_0000 >= 5 * (16 * Value(e.flag[4..7])) / 32
  }

  predicate IsType(e: Event)
  {
    e.kind == 0x2000 || e.kind == 0x1001
  }

  /** A conditional, repeating event that runs now. */
  predicate RunsAndStays(e: Event, look: Look)
  {
    LooksAt(e, look.now) && look.holds && Enough(e) && e.flag[17] && !e.flag[18]
  }

  /** An event left in the queue is as it was but for the counter, the date of execution and the bits 15 and 18. */
  lemma {:induction false} LeftInFields(e: Event, look: Look)
    requires !Removes(Judge(e, look))
    ensures var r := Left(e, look);
      && r.mjd == e.mjd && r.timeout == e.timeout && r.name == e.name && r.kind == e.kind
      && r.data == e.data && r.condition == e.condition
      && (forall b | 0 <= b < 32 && b != 15 && b != 18 :: r.flag[b] == e.flag[b])
      && r.trueCount == (if LooksAt(e, look.now) && look.holds then (e.trueCount + 1) % 0x1_0000_0000 else e.trueCount)
      && r.utcexec == (if RunsAndStays(e, look) && IsType(e) then look.stamp else e.utcexec)
      && (r.flag[15] <==> e.flag[15] || (RunsAndStays(e, look) && IsType(e)))
      && (r.flag[18] <==>
            if LooksAt(e, look.now) then look.holds && Enough(e) && (e.flag[17] || e.flag[18]) else e.flag[18])
  {
    hide Value;
  }

  /** The event as it is recorded when it runs. */
  lemma {:induction false} RecordInFields(e: Event, look: Look)
    requires IsRun(Judge(e, look))
    ensures var r := Record(e, look);
      && r.mjd == e.mjd && r.timeout == e.timeout && r.name == e.name && r.kind == e.kind
      && r.data == e.data && r.condition == e.condition
      && (forall b | 0 <= b < 32 && b != 15 && b != 18 :: r.flag[b] == e.flag[b])
      && r.trueCount == (if e.flag[16] then (e.trueCount + 1) % 0x1_0000_0000 else e.trueCount)
      && r.utcexec == (if IsType(e) then look.stamp else e.utcexec)
      && (r.flag[15] <==> e.flag[15] || IsType(e))
      && (r.flag[18] <==> e.flag[18] || (e.flag[16] && e.flag[17]))
  {
    hide Value;
  }

  /** What is handed over is what is recorded, but for bit 18, which is set only afterwards. */
  lemma {:induction false} HandedInFields(e: Event, look: Look)
    requires IsRun(Judge(e, look))
    ensures Handed(e, look) == Record(e, look).(flag := Record(e, look).flag[18 := e.flag[18]])
  {
    var h, r := Handed(e, look), Record(e, look);
    forall b | 0 <= b < 32 ensures h.flag[b] == r.flag[18 := e.flag[18]][b] {
    }
  }

  // ---------- the event of one name ----------

  /** The event called name: with unique names there is one at most. */
  ghost function Called(q: seq<Event>, name: string): (e: Event)
    requires Names(q, name)
    ensures e in q && e.name == name
  {
    var k :| 0 <= k < |q| && q[k].name == name;
    q[k]
  }

  lemma {:induction false} CalledAt(q: seq<Event>, name: string, k: nat)
    requires UniqueNames(q) && k < |q| && q[k].name == name
    ensures Names(q, name) && Called(q, name) == q[k]
  {
    var e := Called(q, name);
    var i :| 0 <= i < |q| && q[i] == e;
  }

  /** Equal but for counter, date of execution and the bits 15 and 18. */
  ghost predicate SameBut(a: Event, b: Event)
  {
    && a.mjd == b.mjd && a.timeout == b.timeout && a.name == b.name && a.kind == b.kind
    && a.data == b.data && a.condition == b.condition
    && forall k | 0 <= k < 32 && k != 15 && k != 18 :: a.flag[k] == b.flag[k]
  }

  /** The pass reaches the event called name, looks at its condition, and finds it holding. */
  ghost predicate CountsIt(q: seq<Event>, env: seq<Look>, name: string)
    requires |q| <= |env|
  {
    exists k :: 0 <= k < |q| && q[k].name == name && Reaches(q, env, k) && LooksAt(q[k], env[k].now) && env[k].holds
  }

  /** Where an event that a pass leaves stood before. */
  lemma {:induction false} LeftFrom(q: seq<Event>, env: seq<Look>, date: real, i: nat) returns (k: nat)
    requires |q| <= |env| && i < |RunPass(q, env, date).left|
    ensures k < |q| && KeepMask(q, env)[k] && RunPass(q, env, date).left[i] == Lefts(q, env)[k]
  {
    hide RunPass, Judge, Left, Chosen, Count, Position;
    PassLeaves(q, env, date);
    ChosenAreAtPositions(Lefts(q, env), KeepMask(q, env));
    k := Position(KeepMask(q, env), i);
  }

  lemma {:induction false} LeftAt(q: seq<Event>, env: seq<Look>, k: nat)
    requires k < |q| <= |env| && KeepMask(q, env)[k]
    ensures var e, r := q[k], Lefts(q, env)[k];
      && SameBut(r, e)
      && r.trueCount == if Reaches(q, env, k) && LooksAt(e, env[k].now) && env[k].holds
                        then (e.trueCount + 1) % 0x1_0000_0000 else e.trueCount
  {
    hide Judge, Left;
    ReachesExactly(q, env, k);
    if Reaches(q, env, k) {
      LeftInFields(q[k], env[k]);
    }
  }

  /** What a pass does to an event that it leaves. */
  lemma {:induction false} PassCounts(q: seq<Event>, env: seq<Look>, date: real, name: string)
    requires |q| <= |env| && UniqueNames(q) && Names(RunPass(q, env, date).left, name)
    ensures Names(q, name)
    ensures var e, r := Called(q, name), Called(RunPass(q, env, date).left, name);
      && SameBut(r, e)
      && r.trueCount == if CountsIt(q, env, name) then (e.trueCount + 1) % 0x1_0000_0000 else e.trueCount
  {
    hide RunPass, UniqueNames, SameBut, LooksAt, Reaches, KeepMask, Lefts;
    var left := RunPass(q, env, date).left;
    var r := Called(left, name);
    var i :| 0 <= i < |left| && left[i] == r;
    var k := LeftFrom(q, env, date, i);
    LeftsNames(q, env, k);
    CalledAt(q, name, k);
    LeftAt(q, env, k);
    OnlyOneCounts(q, env, name, k);
  }

  lemma {:induction false} LeftsNames(q: seq<Event>, env: seq<Look>, k: nat)
    requires k < |q| <= |env|
    ensures Lefts(q, env)[k].name == q[k].name
  {
  }

  lemma {:induction false} OnlyOneCounts(q: seq<Event>, env: seq<Look>, name: string, k: nat)
    requires k < |q| <= |env| && UniqueNames(q) && q[k].name == name
    ensures CountsIt(q, env, name) <==> Reaches(q, env, k) && LooksAt(q[k], env[k].now) && env[k].holds
  {
    hide LooksAt, Reaches;
  }

  // ---------- every run ----------

  /** An operation other than adding this name leaves an event of it only where one was, and changes it only in
      a pass. */
  lemma {:induction false} StepCounts(s: State, op: Operation, name: string)
    requires Allowed(s, op) && UniqueNames(s.commands) && !(op.Add? && op.event.name == name)
    requires Names(Apply(s, op).commands, name)
    ensures Names(s.commands, name)
    ensures var e, r := Called(s.commands, name), Called(Apply(s, op).commands, name);
      && SameBut(r, e)
      && r.trueCount == if op.RunCommands? && CountsIt(s.commands, op.env, name)
                        then (e.trueCount + 1) % 0x1_0000_0000 else e.trueCount
  {
    hide RunPass, Called, Sorted, Deleted, Added, CountsIt, Event.Same;
    var q, p := s.commands, Apply(s, op).commands;
    match op
    case RunCommands(env, date) => PassCounts(q, env, date, name);
    case Add(e) =>
      AddedAt(q, e);
      StillThere(q, p, name);
    case Delete(e) =>
      DeletedIsChosen(q, e);
      ChosenStay(q, OthersMask(q, e));
      StillThere(q, p, name);
    case DeleteAt(position) =>
      StillThere(q, p, name);
    case Sort(time) =>
      SortedIsStableSort(q, time);
      SameContents(q, p);
      StillThere(q, p, name);
  }

  lemma {:induction false} SameContents(q: seq<Event>, p: seq<Event>)
    requires multiset(q) == multiset(p)
    ensures forall e :: e in p ==> e in q
  {
    forall e | e in p ensures e in q {
      assert e in multiset(p);
    }
  }

  lemma {:induction false} ChosenStay(q: seq<Event>, mask: seq<bool>)
    requires |q| == |mask|
    ensures forall e :: e in Chosen(q, mask) ==> e in q
  {
    hide Chosen, Count, Position;
    ChosenAreAtPositions(q, mask);
  }

  /** If all events of this name were there before, it is the same one. */
  lemma {:induction false} StillThere(q: seq<Event>, p: seq<Event>, name: string)
    requires UniqueNames(q) && Names(p, name) && forall e | e in p && e.name == name :: e in q
    ensures Names(q, name) && Called(p, name) == Called(q, name)
  {
    hide UniqueNames;
    var e := Called(p, name);
    var k :| 0 <= k < |q| && q[k] == e;
    CalledAt(q, name, k);
  }

  /** An event that was just added is the one of its name, with all its fields. */
  lemma {:induction false} AddSets(q: seq<Event>, e: Event)
    requires UniqueNames(q)
    ensures Names(Added(q, e), e.name) && Called(Added(q, e), e.name) == e
  {
    hide UniqueNames, Called;
    AddedUnique(q, e);
    var k := AddedWhere(q, e);
    CalledAt(Added(q, e), e.name, k);
  }

  lemma {:induction false} AddedWhere(q: seq<Event>, e: Event) returns (k: nat)
    ensures k < |Added(q, e)| && Added(q, e)[k] == e
  {
    if q == [] || q[0].name == e.name {
      k := 0;
    } else {
      k := AddedWhere(q[1..], e);
      k := k + 1;
    }
  }

  /** The name is not added anew from operation i up to operation j. */
  ghost predicate NotAdded(ops: seq<Operation>, name: string, i: nat, j: nat)
  {
    i <= j <= |ops| && forall k | i <= k < j :: !(ops[k].Add? && ops[k].event.name == name)
  }

  /** The passes from i up to j that find the condition of the event called name holding. */
  ghost function TimesHeld(states: seq<State>, ops: seq<Operation>, name: string, i: nat, j: nat): (n: nat)
    requires IsRunOf(states, ops) && i <= j <= |ops|
    ensures n <= j - i
    decreases j
  {
    if j == i then 0
    else
      TimesHeld(states, ops, name, i, j - 1) +
      if ops[j - 1].RunCommands? && CountsIt(states[j - 1].commands, ops[j - 1].env, name) then 1 else 0
  }

  /** Over every run of operations the counter of an event in the queue is what it was, plus the passes since then
      that reached it while it was due, not solo and conditional, with its condition holding; and all else but the
      date of execution and the bits 15 and 18 is as it was. */
  lemma {:induction false} CounterOverRuns(states: seq<State>, ops: seq<Operation>, name: string, i: nat, j: nat)
    requires IsRunOf(states, ops) && states[0] == EMPTY && NotAdded(ops, name, i, j)
    requires Names(states[j].commands, name)
    ensures Names(states[i].commands, name)
    ensures var e, r := Called(states[i].commands, name), Called(states[j].commands, name);
      && SameBut(r, e)
      && (e.trueCount < 0x1_0000_0000 ==>
            r.trueCount == (e.trueCount + TimesHeld(states, ops, name, i, j)) % 0x1_0000_0000)
    decreases j
  {
    hide Called, UniqueNames, Apply, CountsIt, Names;
    if i < j {
      NamesAreAlwaysUnique(states, ops, j - 1);
      StepCounts(states[j - 1], ops[j - 1], name);
      CounterOverRuns(states, ops, name, i, j - 1);
    }
  }

  /** From the operation that added it on. */
  lemma {:induction false} CounterSinceAdded(states: seq<State>, ops: seq<Operation>, e: Event, i: nat, j: nat)
    requires IsRunOf(states, ops) && states[0] == EMPTY && i < |ops| && ops[i] == Add(e)
    requires i < j && NotAdded(ops, e.name, i + 1, j) && Names(states[j].commands, e.name)
    ensures var r := Called(states[j].commands, e.name);
      && SameBut(r, e)
      && (e.trueCount < 0x1_0000_0000 ==>
            r.trueCount == (e.trueCount + TimesHeld(states, ops, e.name, i + 1, j)) % 0x1_0000_0000)
  {
    hide Called, UniqueNames, CountsIt, Names, Added;
    NamesAreAlwaysUnique(states, ops, i);
    AddSets(states[i].commands, e);
    CounterOverRuns(states, ops, e.name, i + 1, j);
  }

  /** When a conditional event that was added with a counter of 0 fires: in a pass that reaches it while it is due
      and not solo, exactly if its condition holds now and has held, in this pass and the ones before, as often as
      its priority asks, and it is not a repeating event that has fired since its condition failed. */
  lemma {:induction false} FiresByTotalCount(states: seq<State>, ops: seq<Operation>, e: Event, i: nat, j: nat, k: nat)
    requires IsRunOf(states, ops) && states[0] == EMPTY && i < j < |ops| && ops[i] == Add(e)
    requires NotAdded(ops, e.name, i + 1, j) && ops[j].RunCommands?
    requires var q, env := states[j].commands, ops[j].env;
      && k < |q| && q[k].name == e.name && Reaches(q, env, k)
      && e.mjd <= env[k].now && !e.flag[19] && e.flag[16]
    requires e.trueCount == 0 && |ops| < 0xffff_ffff
    ensures var q, env := states[j].commands, ops[j].env;
      RunMask(q, env)[k] <==>
        && env[k].holds
        && TimesHeld(states, ops, e.name, i + 1, j) + 1 >= 5 * (16 * Value(e.flag[4..7])) / 32
        && !(e.flag[17] && q[k].flag[18])
  {
    hide Called, UniqueNames, CountsIt, TimesHeld, Reaches, RunMask, Value, Apply;
    var q, env := states[j].commands, ops[j].env;
    assert Names(q, e.name);
    NamesAreAlwaysUnique(states, ops, j);
    CalledAt(q, e.name, k);
    CounterSinceAdded(states, ops, e, i, j);
    WhoRuns(q, env, k);
    var n := TimesHeld(states, ops, e.name, i + 1, j);
    assert q[k].flag[4..7] == e.flag[4..7];
    assert q[k].trueCount == n;
  }

  // ---------- four passes ----------

  lemma {:induction false} OneEvent(e: Event, look: Look, date: real)
    requires !Removes(Judge(e, look))
    ensures var pass := RunPass([e], [look], date);
      pass.left == [Left(e, look)] && pass.ran == if IsRun(Judge(e, look)) then [Record(e, look)] else []
  {
    assert [e][1..] == [] && [look][1..] == [];
  }

  /** A repeating command of priority 1 asks for two times. With a condition that holds, holds, fails and holds it
      fires in the second pass, and in the fourth again, since the count is not taken back. */
  lemma {:induction false} FourPasses(e: Event, now: real, stamp: real, date: real)
    requires e.mjd <= now && e.kind == 0x2000 && e.trueCount == 0
    requires e.flag[16] && e.flag[17] && !e.flag[18] && !e.flag[19] && e.flag[4] && !e.flag[5] && !e.flag[6]
    ensures var yes, no := Look(now, stamp, true), Look(now, stamp, false);
      var p1 := RunPass([e], [yes], date);
      && |p1.left| == 1 && p1.ran == []
      && var p2 := RunPass(p1.left, [yes], date);
         && |p2.left| == 1 && |p2.ran| == 1 && p2.ran[0].name == e.name
         && var p3 := RunPass(p2.left, [no], date);
            && |p3.left| == 1 && p3.ran == []
            && var p4 := RunPass(p3.left, [yes], date);
               && |p4.left| == 1 && |p4.ran| == 1 && p4.ran[0].name == e.name && p4.left[0].trueCount == 3
  {
    hide Judge, Left, Record, RunPass;
    PriorityOne(e);
    var yes, no := Look(now, stamp, true), Look(now, stamp, false);
    OneLook(e, yes, 0, date);
    var e1 := Left(e, yes);
    OneLook(e1, yes, 1, date);
    var e2 := Left(e1, yes);
    OneLook(e2, no, 2, date);
    var e3 := Left(e2, no);
    OneLook(e3, yes, 2, date);
  }

  lemma {:induction false} PriorityOne(e: Event)
    requires e.flag[4] && !e.flag[5] && !e.flag[6]
    ensures Value(e.flag[4..7]) == 1
  {
    var bits := [true, false, false];
    assert e.flag[4..7] == bits;
    assert bits[1..] == [false, false] && bits[1..][1..] == [false] && bits[1..][1..][1..] == [];
  }

  /** One pass over such an event. */
  lemma {:induction false} OneLook(e: Event, look: Look, count: nat, date: real)
    requires e.mjd <= look.now && e.kind == 0x2000 && e.trueCount == count < 10
    requires e.flag[16] && e.flag[17] && !e.flag[19] && e.flag[4] && !e.flag[5] && !e.flag[6]
    ensures var r, pass := Left(e, look), RunPass([e], [look], date);
      && pass.left == [r] && r.mjd == e.mjd && r.kind == e.kind && r.name == e.name
      && r.flag[16] && r.flag[17] && !r.flag[19] && r.flag[4] && !r.flag[5] && !r.flag[6]
      && r.trueCount == (if look.holds then count + 1 else count)
      && (r.flag[18] <==> look.holds && count >= 1)
      && (if look.holds && count >= 1 && !e.flag[18] then |pass.ran| == 1 && pass.ran[0].name == e.name
          else pass.ran == [])
  {
    hide Value, Left, Record, RunPass;
    PriorityOne(e);
    assert !Removes(Judge(e, look));
    OneEvent(e, look, date);
    LeftInFields(e, look);
    RecordKeeps(e, look);
  }
}
