/** command_queue.cpp: the queue of events that are to run, and the last of those that ran. */
module CommandQueues {
  import opened Events
  import opened QueueSpec
  import opened QueueProofs
  import opened QueueRuns
  import opened QueueSort

  lemma {:induction false} RecentNext(ran: seq<Event>, e: Event)
    ensures var kept := Recent(ran) + [e];
      Recent(ran + [e]) == if |kept| > HISTORY_SIZE then kept[1..] else kept
  {
  }

  const NOTHING := Pass([], [], [])

  function Join(a: Pass, b: Pass): Pass
  {
    Pass(a.left + b.left, a.ran + b.ran, a.sent + b.sent)
  }

  /** What one event adds to a pass. */
  function Part(e: Event, look: Look, date: real): (r: Pass)
    ensures |r.left| == (if Removes(Judge(e, look)) then 0 else 1)
    ensures r.sent != [] <==> IsHandedOver(e, look)
  {
    Pass(
      if Removes(Judge(e, look)) then [] else [Left(e, look)],
      if IsRun(Judge(e, look)) then [Record(e, look)] else [],
      if IsHandedOver(e, look) then [Handover(Handed(e, look), date)] else [])
  }

  /** What a pass does from event k on. */
  function PassFrom(q: seq<Event>, env: seq<Look>, k: nat, date: real): Pass
    requires k <= |q| <= |env|
  {
    RunPass(q[k..], env[k..], date)
  }

  lemma {:induction false} JoinIsAssociative(a: Pass, b: Pass, c: Pass)
    ensures Join(Join(a, b), c) == Join(a, Join(b, c)) && Join(NOTHING, a) == a
  {
    assert (a.left + b.left) + c.left == a.left + (b.left + c.left);
    assert (a.ran + b.ran) + c.ran == a.ran + (b.ran + c.ran);
    assert (a.sent + b.sent) + c.sent == a.sent + (b.sent + c.sent);
  }

  lemma {:induction false} PassFromNext(q: seq<Event>, env: seq<Look>, k: nat, date: real)
    requires k < |q| <= |env|
    ensures PassFrom(q, env, k, date) == Join(Part(q[k], env[k], date),
      if Ends(Judge(q[k], env[k])) then Pass(q[k + 1..], [], [])
      else PassFrom(q, env, k + 1, NextDate(q[k], env[k], date)))
  {
    hide Judge, Left, Record, Handed;
    assert q[k..][1..] == q[k + 1..] && env[k..][1..] == env[k + 1..];
  }

  lemma {:induction false} PassFromEnd(q: seq<Event>, env: seq<Look>, date: real)
    requires |q| <= |env|
    ensures PassFrom(q, env, |q|, date) == NOTHING
    ensures PassFrom(q, env, 0, date) == RunPass(q, env, date)
  {
    assert q[0..] == q && env[0..] == env;
  }

  /** The state of a pass that has done its part for some events and has others still to reach. */
  ghost predicate Stands(now: State, before: State, done: Pass, others: seq<Event>)
  {
    && now.commands == done.left + others
    && now.ran == before.ran + done.ran && now.sent == before.sent + done.sent
    && now.changed == (before.changed || done.sent != [])
  }

  /** The state after the event at position i did its part. */
  function Visited(s: State, i: nat, part: Pass): State
    requires i < |s.commands|
  {
    State(s.commands[..i] + part.left + s.commands[i + 1..], s.changed || part.sent != [],
          s.ran + part.ran, s.sent + part.sent)
  }

  lemma {:induction false} PassAdvances(now: State, before: State, done: Pass, q: seq<Event>, k: nat, part: Pass)
    requires k < |q| && Stands(now, before, done, q[k..])
    ensures |done.left| < |now.commands| && now.commands[|done.left|] == q[k]
    ensures Stands(Visited(now, |done.left|, part), before, Join(done, part), q[k + 1..])
  {
    Splice(done.left, q, k);
    assert before.ran + done.ran + part.ran == before.ran + (done.ran + part.ran);
    assert before.sent + done.sent + part.sent == before.sent + (done.sent + part.sent);
  }

  lemma {:induction false} RecentIsLastTen(ran: seq<Event>)
    ensures var r := Recent(ran); |r| == (if |ran| < 10 then |ran| else 10) && r == ran[|ran| - |r|..]
  {
  }

  lemma {:induction false} PassStarts(s: State)
    ensures Stands(s, s, NOTHING, s.commands[0..])
  {
  }

  lemma {:induction false} StandsLength(now: State, before: State, done: Pass, q: seq<Event>, k: nat)
    requires k <= |q| && Stands(now, before, done, q[k..])
    ensures |now.commands| == |done.left| + |q| - k
  {
  }

  lemma {:induction false} JoinLength(a: Pass, b: Pass)
    ensures |Join(a, b).left| == |a.left| + |b.left|
  {
  }

  /** A pass with nothing more to reach has done it all. */
  lemma {:induction false} PassIsDone(now: State, before: State, done: Pass, others: seq<Event>,
      env: seq<Look>, date: real)
    requires Stands(now, before, done, others) && |before.commands| <= |env|
    requires RunPass(before.commands, env, date) == Join(done, Pass(others, [], []))
    ensures now == Apply(before, Operation.RunCommands(env, date))
    ensures now.commands == RunPass(before.commands, env, date).left
  {
  }

  lemma {:induction false} AddApplied(s: State, e: Event)
    ensures Apply(s, Add(e)) == s.(commands := Added(s.commands, e), changed := true)
  {
  }

  /** None of the first i events has the name of e. */
  ghost predicate Searched(q: seq<Event>, e: Event, i: nat)
  {
    i <= |q| && Added(q, e) == q[..i] + Added(q[i..], e) && !Names(q[..i], e.name)
  }

  lemma {:induction false} SearchedNext(q: seq<Event>, e: Event, i: nat)
    requires Searched(q, e, i) && i < |q|
    ensures q[i].name != e.name ==> Searched(q, e, i + 1)
    ensures q[i].name == e.name ==> Added(q, e) == q[i := e] && Names(q, e.name)
  {
    hide Added;
    AddedNext(q, e, i);
    if q[i].name == e.name {
      assert q[i := e] == q[..i] + ([e] + q[i + 1..]);
    } else {
      assert q[..i + 1] == q[..i] + [q[i]];
      assert q[..i] + ([q[i]] + Added(q[i + 1..], e)) == q[..i + 1] + Added(q[i + 1..], e);
      NamesLast(q[..i], q[i], e.name);
    }
  }

  lemma {:induction false} NamesLast(q: seq<Event>, e: Event, name: string)
    ensures Names(q + [e], name) ==> Names(q, name) || e.name == name
  {
    if k :| 0 <= k < |q + [e]| && (q + [e])[k].name == name {
      assert k < |q| ==> q[k].name == name;
    }
  }

  lemma {:induction false} AddedNext(q: seq<Event>, e: Event, i: nat)
    requires i < |q|
    ensures Added(q[i..], e) == if q[i].name == e.name then [e] + q[i + 1..] else [q[i]] + Added(q[i + 1..], e)
  {
    assert q[i..][1..] == q[i + 1..];
  }

  lemma {:induction false} SearchedAll(q: seq<Event>, e: Event)
    ensures Searched(q, e, 0)
    ensures Searched(q, e, |q|) ==> Added(q, e) == q + [e] && !Names(q, e.name)
  {
    assert q[0..] == q && q[..|q|] == q;
  }

  /** Of the first k events of q those done stay; the others are still to be looked at. */
  ghost predicate Weeded(now: seq<Event>, q: seq<Event>, e: Event, done: seq<Event>, k: nat)
  {
    k <= |q| && now == done + q[k..] && Deleted(q, e) == done + Deleted(q[k..], e)
  }

  lemma {:induction false} WeededNext(now: seq<Event>, q: seq<Event>, e: Event, done: seq<Event>, k: nat)
    requires Weeded(now, q, e, done, k) && |done| < |now|
    ensures k < |q| && now[|done|] == q[k]
    ensures e.Same(q[k]) ==> Weeded(DeletedAt(now, |done|), q, e, done, k + 1)
    ensures !e.Same(q[k]) ==> Weeded(now, q, e, done + [q[k]], k + 1)
  {
    hide Deleted, Event.Same;
    Splice(done, q, k);
    DeletedNext(q, e, k);
    assert done + ([q[k]] + Deleted(q[k + 1..], e)) == done + [q[k]] + Deleted(q[k + 1..], e);
  }

  lemma {:induction false} DeletedNext(q: seq<Event>, e: Event, k: nat)
    requires k < |q|
    ensures Deleted(q[k..], e) == if e.Same(q[k]) then Deleted(q[k + 1..], e) else [q[k]] + Deleted(q[k + 1..], e)
  {
    assert q[k..][1..] == q[k + 1..];
  }

  lemma {:induction false} WeededAll(now: seq<Event>, q: seq<Event>, e: Event, done: seq<Event>, k: nat)
    ensures Weeded(q, q, e, [], 0)
    ensures Weeded(now, q, e, done, k) ==> k <= |q| && |now| == |done| + |q| - k
    ensures Weeded(now, q, e, done, |q|) ==> now == Deleted(q, e)
  {
    assert q[0..] == q && q[|q|..] == [];
  }

  lemma {:induction false} Splice(done: seq<Event>, q: seq<Event>, k: nat)
    requires k < |q|
    ensures var all := done + q[k..];
      && all[..|done|] == done && all[|done|] == q[k] && all[|done| + 1..] == q[k + 1..]
  {
  }

  class CommandQueue {
    var commands: seq<Event>
    var events: seq<Event>
    var queueChanged: bool
    var queueBlocked: bool

    /** All that ever ran, and all that was ever given to run_command or run_request. */
    ghost var ran: seq<Event>
    ghost var sent: seq<Handover>

    /** The history is the last ten of what ran; names are unique; nothing ever blocks the queue. */
    ghost predicate Valid()
      reads this
    {
      events == Recent(ran) && UniqueNames(commands) && !queueBlocked
    }

    ghost function Contents(): State
      reads this
    {
      State(commands, queueChanged, ran, sent)
    }

    constructor ()
      ensures Valid() && Contents() == EMPTY
    {
      commands, events, queueChanged, queueBlocked := [], [], false, false;
      ran, sent := [], [];
    }

    /** Keeps an event that ran; the eleventh last is dropped. */
    method Remember(e: Event)
      requires events == Recent(ran)
      modifies `events, `ran
      ensures events == Recent(ran) && ran == old(ran) + [e]
      ensures |events| == (if |ran| < 10 then |ran| else 10) && events == ran[|ran| - |events|..]
    {
      RecentNext(ran, e);
      events := events + [e];
      if |events| > HISTORY_SIZE {
        events := events[1..];
      }
      ran := ran + [e];
      RecentIsLastTen(ran);
    }

    /** run_command and run_request: what they do to the event and to the queue. */
    method Execute(e: Event, stamp: real, date: real) returns (executed: Event, next: real)
      modifies `queueChanged, `sent
      ensures executed == if e.IsExecutable() then e.SetExecuted(stamp) else e
      ensures next == if e.IsExecutable() then date + LOG_STEP else date
      ensures sent == old(sent) + if e.IsExecutable() then [Handover(executed, date)] else []
      ensures queueChanged == (old(queueChanged) || e.IsExecutable())
    {
      executed, next := e, date;
      if e.kind == EVENT_TYPE_COMMAND || e.kind == EVENT_TYPE_REQUEST {
        queueChanged := true;
        executed := e.SetExecuted(stamp);
        sent := sent + [Handover(executed, date)];
        next := date + LOG_STEP;
      }
    }

    /** The body of the loop of run_commands, for the event at position i. erase(ii--) takes the event
        out and lets the loop go on with the one behind it. */
    method Visit(i: nat, look: Look, date: real) returns (stays: bool, ends: bool, next: real)
      requires i < |commands| && events == Recent(ran) && !queueBlocked
      modifies this
      ensures events == Recent(ran) && !queueBlocked
      ensures Contents() == Visited(old(Contents()), i, Part(old(commands[i]), look, date))
      ensures var e := old(commands[i]);
        stays == !Removes(Judge(e, look)) && ends == Ends(Judge(e, look)) && next == NextDate(e, look, date)
    {
      hide Recent;
      stays, ends, next := true, false, date;
      var e := commands[i];
      if !e.IsSolo() && !queueBlocked {
        queueBlocked := e.IsSolo();
        if e.IsReady(look.now) {
          if e.IsConditional() {
            var answer := e.ConditionTrue(look.holds);
            e := e.Counted(look.holds);
            if answer {
              if e.IsRepeat() {
                if !e.IsAlreadyRun() {
                  e, next := Execute(e, look.stamp, date);
                  e := e.SetAlreadyRun(true);
                  Remember(e);
                  ends := true;
                }
              } else {
                e, next := Execute(e, look.stamp, date);
                Remember(e);
                stays, ends := false, true;
              }
            } else {
              e := e.SetAlreadyRun(false);
            }
          } else {
            e, next := Execute(e, look.stamp, date);
            Remember(e);
            stays := false;
          }
        }
      }
      commands := commands[..i] + (if stays then [e] else []) + commands[i + 1..];
    }

    /** One pass over the queue; env[k] is what is seen when the k-th event of the queue is reached. */
    method RunCommands(env: seq<Look>, date: real) returns (size: nat)
      requires Valid() && |commands| <= |env|
      modifies this
      ensures Valid() && size == |commands|
      ensures Contents() == Apply(old(Contents()), Operation.RunCommands(env, date))
    {
      hide Stands, Visited, Join, Part, PassFrom, RunPass, Recent, Judge, UniqueNames, NextDate, Apply;
      ghost var before, q := Contents(), commands;
      ghost var done, rest := NOTHING, PassFrom(q, env, 0, date);
      var i, k, now := 0, 0, date;
      PassStarts(before);
      PassKeepsNamesUnique(q, env, date);
      PassFromEnd(q, env, date);
      JoinIsAssociative(rest, rest, rest);
      while i < |commands|
        invariant k <= |q| && i == |done.left| && Stands(Contents(), before, done, q[k..])
        invariant RunPass(q, env, date) == Join(done, rest) && rest == PassFrom(q, env, k, now)
        invariant events == Recent(ran) && !queueBlocked
        decreases |q| - k
      {
        StandsLength(Contents(), before, done, q, k);
        ghost var part := Part(q[k], env[k], now);
        PassFromNext(q, env, k, now);
        PassAdvances(Contents(), before, done, q, k, part);
        var stays, ends, next := Visit(i, env[k], now);
        k, now := k + 1, next;
        rest := if ends then Pass(q[k..], [], []) else PassFrom(q, env, k, now);
        JoinIsAssociative(done, part, rest);
        JoinLength(done, part);
        done := Join(done, part);
        if stays { i := i + 1; }
        if ends { break; }
      }
      StandsLength(Contents(), before, done, q, k);
      PassFromEnd(q, env, now);
      assert q[|q|..] == [];
      PassIsDone(Contents(), before, done, q[k..], env, date);
      size := |commands|;
    }

    /** 0 if an event of the same name was replaced, 1 if the event was put at the end. */
    method AddCommand(e: Event) returns (count: nat)
      requires Valid()
      modifies this
      ensures Valid() && Contents() == Apply(old(Contents()), Add(e))
      ensures count == if Names(old(commands), e.name) then 0 else 1
    {
      hide UniqueNames, Recent, Added, Apply, Names, Searched;
      ghost var q := commands;
      AddApplied(Contents(), e);
      AddedUnique(q, e);
      SearchedAll(q, e);
      var i := 0;
      while i < |commands|
        invariant i <= |q| && Searched(q, e, i)
        invariant unchanged(this)
      {
        SearchedNext(q, e, i);
        if e.name == commands[i].name {
          commands := commands[i := e];
          queueChanged := true;
          return 0;
        }
        i := i + 1;
      }
      commands := commands + [e];
      queueChanged := true;
      return 1;
    }

    /** The loop of del_command: erase(ii--) for every event equal to e. */
    method Weed(e: Event)
      modifies `commands
      ensures commands == Deleted(old(commands), e)
    {
      hide Deleted, DeletedAt, Event.Same, Weeded;
      ghost var q := commands;
      ghost var k, done := 0, [];
      var i := 0;
      WeededAll(commands, q, e, done, k);
      while i < |commands|
        invariant i == |done| && Weeded(commands, q, e, done, k)
        decreases |q| - k
      {
        WeededNext(commands, q, e, done, k);
        if e.Same(commands[i]) {
          commands := DeletedAt(commands, i);
        } else {
          i, done := i + 1, done + [q[k]];
        }
        k := k + 1;
      }
      WeededAll(commands, q, e, done, k);
    }

    /** The number of events taken out: with unique names, none or one. */
    method DelCommand(e: Event) returns (count: nat)
      requires Valid()
      modifies this
      ensures Valid() && Contents() == Apply(old(Contents()), Delete(e))
      ensures count == if Holds(old(commands), e) then 1 else 0
    {
      hide UniqueNames, Recent, Deleted, Holds, Event.Same;
      DeletedUnique(commands, e);
      DeletesAtMostOne(commands, e);
      var size := |commands|;
      Weed(e);
      queueChanged := true;
      count := size - |commands|;
    }

    method DelCommandAt(position: nat) returns (count: nat)
      requires Valid() && position < |commands|
      modifies this
      ensures Valid() && Contents() == Apply(old(Contents()), DeleteAt(position))
      ensures count == 1
    {
      var size := |commands|;
      commands := commands[..position] + commands[position + 1..];
      queueChanged := true;
      count := size - |commands|;
    }

    /** list::sort on the ISO 8601 texts of the dates. */
    method SortCommands(time: real -> string)
      requires Valid()
      modifies this
      ensures Valid() && Contents() == Apply(old(Contents()), Operation.Sort(time))
      ensures InOrder(commands, time) && multiset(commands) == multiset(old(commands))
      ensures forall t :: AtTime(commands, time, t) == AtTime(old(commands), time, t)
    {
      hide InOrder, UniqueNames, Recent;
      SortedUnique(commands, time);
      SortedIsStableSort(commands, time);
      commands := Sorted(commands, time);
    }
  }
}
