/** What holds over every run of the queue's operations. */
module QueueRuns {
  import opened Events
  import opened QueueSpec
  import opened QueueProofs
  import opened QueueSort

  // ---------- names stay unique ----------

  lemma {:induction false} InsertedNames(e: Event, q: seq<Event>, time: real -> string, name: string)
    ensures Names(Inserted(e, q, time), name) <==> name == e.name || Names(q, name)
    decreases q
  {
    NamesCons(e, q, name);
    if q != [] && Before(time(q[0].mjd), time(e.mjd)) {
      InsertedNames(e, q[1..], time, name);
      NamesCons(q[0], Inserted(e, q[1..], time), name);
      NamesCons(q[0], q[1..], name);
      assert q == [q[0]] + q[1..];
    }
  }

  lemma {:induction false} NamesCons(e: Event, q: seq<Event>, name: string)
    ensures Names([e] + q, name) <==> name == e.name || Names(q, name)
  {
    if Names(q, name) {
      var k :| 0 <= k < |q| && q[k].name == name;
      assert ([e] + q)[k + 1].name == name;
    }
    assert ([e] + q)[0] == e;
  }

  lemma {:induction false} UniqueCons(e: Event, q: seq<Event>)
    ensures UniqueNames([e] + q) <==> UniqueNames(q) && !Names(q, e.name)
  {
    var r := [e] + q;
    if UniqueNames(r) {
      forall i, j | 0 <= i < j < |q| ensures q[i].name != q[j].name {
        assert r[i + 1] == q[i] && r[j + 1] == q[j];
      }
      forall k | 0 <= k < |q| ensures q[k].name != e.name {
        assert r[0] == e && r[k + 1] == q[k];
      }
    }
  }

  lemma {:induction false} InsertedUnique(e: Event, q: seq<Event>, time: real -> string)
    requires UniqueNames([e] + q)
    ensures UniqueNames(Inserted(e, q, time))
    decreases q
  {
    hide UniqueNames, Names;
    UniqueCons(e, q);
    if q != [] && Before(time(q[0].mjd), time(e.mjd)) {
      assert q == [q[0]] + q[1..];
      UniqueCons(q[0], q[1..]);
      UniqueCons(e, q[1..]);
      NamesCons(q[0], q[1..], e.name);
      InsertedUnique(e, q[1..], time);
      InsertedNames(e, q[1..], time, q[0].name);
      UniqueCons(q[0], Inserted(e, q[1..], time));
    }
  }

  lemma {:induction false} SortedUnique(q: seq<Event>, time: real -> string)
    requires UniqueNames(q)
    ensures UniqueNames(Sorted(q, time))
    ensures forall name :: Names(Sorted(q, time), name) <==> Names(q, name)
  {
    hide UniqueNames, Names, Inserted;
    if q != [] {
      var e, rest := q[0], q[1..];
      assert q == [e] + rest;
      UniqueCons(e, rest);
      SortedUnique(rest, time);
      UniqueCons(e, Sorted(rest, time));
      InsertedUnique(e, Sorted(rest, time), time);
      forall name ensures Names(Sorted(q, time), name) <==> Names(q, name) {
        InsertedNames(e, Sorted(rest, time), time, name);
        NamesCons(e, rest, name);
      }
    }
  }

  lemma {:induction false} AddedUnique(q: seq<Event>, e: Event)
    requires UniqueNames(q)
    ensures UniqueNames(Added(q, e))
  {
    AddedAt(q, e);
    var r := Added(q, e);
    forall i, j | 0 <= i < j < |r| ensures r[i].name != r[j].name {
      if j < |q| {
        assert r[i].name == q[i].name && r[j].name == q[j].name;
      } else {
        assert !Names(q, e.name);
      }
    }
  }

  lemma {:induction false} DeletedUnique(q: seq<Event>, e: Event)
    requires UniqueNames(q)
    ensures UniqueNames(Deleted(q, e))
  {
    DeletedIsChosen(q, e);
    ChosenKeepsNamesUnique(q, OthersMask(q, e));
  }

  lemma {:induction false} PassKeepsNamesUnique(q: seq<Event>, env: seq<Look>, date: real)
    requires |q| <= |env| && UniqueNames(q)
    ensures UniqueNames(RunPass(q, env, date).left)
  {
    PassLeaves(q, env, date);
    ChosenKeepsNamesUnique(Lefts(q, env), KeepMask(q, env));
  }

  lemma {:induction false} StepKeepsNamesUnique(s: State, op: Operation)
    requires Allowed(s, op) && UniqueNames(s.commands)
    ensures UniqueNames(Apply(s, op).commands)
  {
    match op
    case Add(e) => AddedUnique(s.commands, e);
    case Delete(e) => DeletedUnique(s.commands, e);
    case DeleteAt(_) =>
    case Sort(time) => SortedUnique(s.commands, time);
    case RunCommands(env, date) => PassKeepsNamesUnique(s.commands, env, date);
  }

  /** Whatever is added, deleted, sorted and run: from the empty queue on, no two events share a name. */
  lemma {:induction false} NamesAreAlwaysUnique(states: seq<State>, ops: seq<Operation>, i: nat)
    requires IsRunOf(states, ops) && i < |states| && states[0] == EMPTY
    ensures UniqueNames(states[i].commands)
  {
    if i > 0 {
      NamesAreAlwaysUnique(states, ops, i - 1);
      StepKeepsNamesUnique(states[i - 1], ops[i - 1]);
    }
  }

  // ---------- a sorted queue stays sorted ----------

  lemma {:induction false} StepKeepsOrder(s: State, op: Operation, time: real -> string)
    requires Allowed(s, op) && InOrder(s.commands, time)
    requires !op.Add? && !op.Sort?
    ensures InOrder(Apply(s, op).commands, time)
  {
    match op
    case Delete(e) =>
      DeletedIsChosen(s.commands, e);
      ChosenKeepsOrder(s.commands, OthersMask(s.commands, e), time);
    case DeleteAt(_) =>
    case RunCommands(env, date) =>
      PassLeaves(s.commands, env, date);
      ChosenKeepsOrder(Lefts(s.commands, env), KeepMask(s.commands, env), time);
  }

  /** After a sort the queue stays in order through every run of passes and deletions. */
  lemma {:induction false} OrderLasts(states: seq<State>, ops: seq<Operation>, time: real -> string, i: nat)
    requires IsRunOf(states, ops) && 1 <= i < |states|
    requires ops[0] == Sort(time)
    requires forall k | 1 <= k < |ops| :: !ops[k].Add? && !ops[k].Sort?
    ensures InOrder(states[i].commands, time)
  {
    hide InOrder;
    if i == 1 {
      SortedIsStableSort(states[0].commands, time);
    } else {
      OrderLasts(states, ops, time, i - 1);
      StepKeepsOrder(states[i - 1], ops[i - 1], time);
    }
  }

  // ---------- solo events ----------

  ghost predicate NoneIsSolo(ran: seq<Event>)
  {
    forall k | 0 <= k < |ran| :: !ran[k].IsSolo()
  }

  lemma {:induction false} PassRunsNoSolo(q: seq<Event>, env: seq<Look>, date: real)
    requires |q| <= |env|
    ensures NoneIsSolo(RunPass(q, env, date).ran)
  {
    PassRuns(q, env, date);
    hide Chosen, Count, Position, RunPass;
    ChosenAreAtPositions(Records(q, env), RunMask(q, env));
    var ran := RunPass(q, env, date).ran;
    forall k | 0 <= k < |ran| ensures !ran[k].IsSolo() {
      var at := Position(RunMask(q, env), k);
      RecordKeeps(q[at], env[at]);
    }
  }

  /** A solo event never runs, on no run of the queue. */
  lemma {:induction false} SoloNeverRuns(states: seq<State>, ops: seq<Operation>, i: nat)
    requires IsRunOf(states, ops) && i < |states| && states[0] == EMPTY
    ensures NoneIsSolo(states[i].ran)
  {
    if i > 0 {
      SoloNeverRuns(states, ops, i - 1);
      if ops[i - 1].RunCommands? {
        PassRunsNoSolo(states[i - 1].commands, ops[i - 1].env, ops[i - 1].date);
      }
    }
  }

  // ---------- between two runs of one event ----------

  /** What is left of the event called name has fired, and may not fire again yet. */
  ghost predicate Spent(q: seq<Event>, name: string)
  {
    forall k | 0 <= k < |q| && q[k].name == name :: q[k].IsConditional() && q[k].IsRepeat() && q[k].IsAlreadyRun()
  }

  /** The pass looked at the condition of the event called name, and found it not true. */
  ghost predicate FoundFalse(q: seq<Event>, env: seq<Look>, name: string)
    requires |q| <= |env|
  {
    exists k :: 0 <= k < |q| && k <= Stop(q, env) && q[k].name == name && Judge(q[k], env[k]).Reset?
  }

  /** The operation puts in an event called name, or finds its condition false. */
  ghost predicate Rearms(s: State, op: Operation, name: string)
    requires Allowed(s, op)
  {
    || (op.Add? && op.event.name == name)
    || (op.RunCommands? && FoundFalse(s.commands, op.env, name))
  }

  ghost predicate RunsIt(s: State, op: Operation, name: string)
    requires Allowed(s, op)
  {
    op.RunCommands? && Names(RunPass(s.commands, op.env, op.date).ran, name)
  }

  lemma {:induction false} ChosenNames(q: seq<Event>, mask: seq<bool>, name: string)
    requires |q| == |mask|
    ensures Names(Chosen(q, mask), name) <==> exists k :: 0 <= k < |q| && mask[k] && q[k].name == name
  {
    hide Chosen, Count, Position;
    ChosenAreAtPositions(q, mask);
    var r := Chosen(q, mask);
    if k :| 0 <= k < |q| && mask[k] && q[k].name == name {
      var i := MarkAt(mask, k);
      assert r[i].name == name;
    }
    if Names(r, name) {
      var i :| 0 <= i < |r| && r[i].name == name;
      assert q[Position(mask, i)].name == name;
    }
  }

  lemma {:induction false} JudgedRun(e: Event, look: Look)
    ensures IsRun(Judge(e, look)) && !Removes(Judge(e, look)) ==>
      Left(e, look).IsConditional() && Left(e, look).IsRepeat() && Left(e, look).IsAlreadyRun()
    ensures e.IsConditional() && e.IsRepeat() && e.IsAlreadyRun() && !Judge(e, look).Reset? ==>
      !IsRun(Judge(e, look)) && Left(e, look).IsConditional() && Left(e, look).IsRepeat() && Left(e, look).IsAlreadyRun()
  {
  }

  /** The event behind a name that ran. */
  lemma {:induction false} Runner(q: seq<Event>, env: seq<Look>, date: real, name: string) returns (at: nat)
    requires |q| <= |env| && Names(RunPass(q, env, date).ran, name)
    ensures at < |q| && RunMask(q, env)[at] && q[at].name == name
  {
    hide RunPass, Record, Judge, Left, Names, Chosen;
    PassRuns(q, env, date);
    ChosenNames(Records(q, env), RunMask(q, env), name);
    at :| 0 <= at < |q| && RunMask(q, env)[at] && Records(q, env)[at].name == name;
    RecordKeeps(q[at], env[at]);
  }

  lemma {:induction false} ARunSpends(q: seq<Event>, env: seq<Look>, date: real, name: string)
    requires |q| <= |env| && UniqueNames(q) && Names(RunPass(q, env, date).ran, name)
    ensures Spent(RunPass(q, env, date).left, name)
  {
    hide RunPass, Judge, Left, Record, Spent, Chosen, Names;
    var at := Runner(q, env, date, name);
    JudgedRun(q[at], env[at]);
    forall k | 0 <= k < |q| && KeepMask(q, env)[k] && q[k].name == name
      ensures var e := Lefts(q, env)[k]; e.IsConditional() && e.IsRepeat() && e.IsAlreadyRun()
    {
      assert k == at;
    }
    LeftsSpent(q, env, date, name);
  }

  /** If each event called name that the pass keeps is spent, so is what the pass leaves. */
  lemma {:induction false} LeftsSpent(q: seq<Event>, env: seq<Look>, date: real, name: string)
    requires |q| <= |env|
    requires forall k | 0 <= k < |q| && KeepMask(q, env)[k] && q[k].name == name ::
      var e := Lefts(q, env)[k]; e.IsConditional() && e.IsRepeat() && e.IsAlreadyRun()
    ensures Spent(RunPass(q, env, date).left, name)
  {
    hide RunPass, Judge, Left, Chosen, Count, Position;
    PassLeaves(q, env, date);
    ChosenAreAtPositions(Lefts(q, env), KeepMask(q, env));
  }

  lemma {:induction false} ASpentEventDoesNotRun(q: seq<Event>, env: seq<Look>, date: real, name: string)
    requires |q| <= |env| && Spent(q, name) && !FoundFalse(q, env, name)
    ensures !Names(RunPass(q, env, date).ran, name)
    ensures Spent(RunPass(q, env, date).left, name)
  {
    hide RunPass, Judge, Left, Record;
    PassRuns(q, env, date);
    ChosenNames(Records(q, env), RunMask(q, env), name);
    forall k | 0 <= k < |q| && q[k].name == Records(q, env)[k].name == name ensures !RunMask(q, env)[k] {
      JudgedRun(q[k], env[k]);
    }
    forall k | 0 <= k < |q| ensures Records(q, env)[k].name == q[k].name { RecordKeeps(q[k], env[k]); }
    forall k | 0 <= k < |q| && q[k].name == name
      ensures var e := Lefts(q, env)[k]; e.IsConditional() && e.IsRepeat() && e.IsAlreadyRun()
    {
      JudgedRun(q[k], env[k]);
    }
    LeftsSpent(q, env, date, name);
  }

  lemma {:induction false} SpentLasts(s: State, op: Operation, name: string)
    requires Allowed(s, op) && UniqueNames(s.commands) && Spent(s.commands, name) && !Rearms(s, op, name)
    ensures Spent(Apply(s, op).commands, name)
  {
    match op
    case Add(e) => AddedAt(s.commands, e);
    case Delete(e) =>
      DeletedIsChosen(s.commands, e);
      ChosenAreAtPositions(s.commands, OthersMask(s.commands, e));
    case DeleteAt(_) =>
    case Sort(time) =>
      SortedIsStableSort(s.commands, time);
      SpentByContents(s.commands, Sorted(s.commands, time), name);
    case RunCommands(env, date) => ASpentEventDoesNotRun(s.commands, env, date, name);
  }

  lemma {:induction false} SpentByContents(q: seq<Event>, p: seq<Event>, name: string)
    requires multiset(q) == multiset(p) && Spent(q, name)
    ensures Spent(p, name)
  {
    forall k | 0 <= k < |p| ensures p[k] in q {
      assert p[k] in multiset(p);
    }
  }

  lemma {:induction false} SpentUntilRearmed(states: seq<State>, ops: seq<Operation>, name: string, i: nat, j: nat)
    requires IsRunOf(states, ops) && states[0] == EMPTY && i < j < |states|
    requires RunsIt(states[i], ops[i], name)
    requires forall k | i < k < j :: !Rearms(states[k], ops[k], name)
    ensures Spent(states[j].commands, name)
    decreases j
  {
    hide Spent, Rearms, UniqueNames;
    NamesAreAlwaysUnique(states, ops, j - 1);
    if j == i + 1 {
      ARunSpends(states[i].commands, ops[i].env, ops[i].date, name);
    } else {
      SpentUntilRearmed(states, ops, name, i, j - 1);
      SpentLasts(states[j - 1], ops[j - 1], name);
    }
  }

  lemma {:induction false} WhatRunsWasNotFoundFalse(q: seq<Event>, env: seq<Look>, date: real, name: string)
    requires |q| <= |env| && UniqueNames(q) && Names(RunPass(q, env, date).ran, name)
    ensures !FoundFalse(q, env, name)
  {
    hide RunPass, Record, Judge, Left, Names;
    var at := Runner(q, env, date, name);
  }

  /** Between two passes that run an event of one name, the name was added again, or a pass found the
      condition of that event not true. Without either, a command runs once. */
  lemma {:induction false} BetweenTwoRuns(states: seq<State>, ops: seq<Operation>, name: string, i: nat, j: nat)
    requires IsRunOf(states, ops) && states[0] == EMPTY && i < j < |ops|
    requires RunsIt(states[i], ops[i], name) && RunsIt(states[j], ops[j], name)
    ensures exists k :: i < k < j && Rearms(states[k], ops[k], name)
  {
    if forall k | i < k < j :: !Rearms(states[k], ops[k], name) {
      NamesAreAlwaysUnique(states, ops, j);
      WhatRunsWasNotFoundFalse(states[j].commands, ops[j].env, ops[j].date, name);
      SpentUntilRearmed(states, ops, name, i, j);
      ASpentEventDoesNotRun(states[j].commands, ops[j].env, ops[j].date, name);
    }
  }

  // ---------- the mark that the queue has changed ----------

  /** A pass marks the queue as changed exactly when a command or a request ran. */
  lemma {:induction false} PassMarksExecutables(s: State, env: seq<Look>, date: real)
    requires Allowed(s, RunCommands(env, date))
    ensures var after := Apply(s, RunCommands(env, date));
      && (after.changed <==> s.changed || SomeExecutable(s.commands, RunMask(s.commands, env)))
      && (after.changed <==> s.changed || Executables(RunPass(s.commands, env, date).ran) != [])
  {
    hide RunPass;
    SendsExecutables(s.commands, env, date);
    Handovers(s.commands, env, date);
  }

  /** Additions and deletions always mark the queue as changed, even if nothing was there to delete; a sort never
      does. No operation takes the mark away. */
  lemma {:induction false} MarksExactly(s: State, op: Operation)
    requires Allowed(s, op)
    ensures Apply(s, op).changed <==>
      s.changed || op.Add? || op.Delete? || op.DeleteAt? ||
      (op.RunCommands? && SomeExecutable(s.commands, RunMask(s.commands, op.env)))
  {
    hide RunPass;
    if op.RunCommands? {
      PassMarksExecutables(s, op.env, op.date);
    }
  }

  /** Exactly when a pass changes the queue and leaves it without the mark: no command and no request runs,
      and the pass reaches an event that it takes out or changes. */
  lemma {:induction false} UnmarkedChange(s: State, env: seq<Look>, date: real)
    requires Allowed(s, RunCommands(env, date))
    ensures var after, q := Apply(s, RunCommands(env, date)), s.commands;
      after.commands != q && !after.changed
      <==> !s.changed && !SomeExecutable(q, RunMask(q, env)) && exists k :: TouchesAt(q, env, k)
  {
    hide RunPass, SomeExecutable, TouchesAt;
    PassMarksExecutables(s, env, date);
    ChangesExactly(s.commands, env, date);
  }

  /** An event of another type leaves the queue without the mark, so that the saved queue keeps it. */
  lemma {:induction false} OtherTypesLeaveUnmarked(s: State, look: Look, date: real)
    requires |s.commands| == 1 && !s.changed
    requires Judge(s.commands[0], look).Runs? && !s.commands[0].IsExecutable()
    ensures var after := Apply(s, RunCommands([look], date));
      after.commands == [] && after.ran == s.ran + s.commands && !after.changed
  {
    var q, env := s.commands, [look];
    var rest := RunPass(q[1..], env[1..], NextDate(q[0], env[0], date));
    assert rest == Pass([], [], []);
    assert RunPass(q, env, date) == Pass([], [q[0]], []);
  }
}
