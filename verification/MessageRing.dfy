/** agentclass.cpp: the queue between the message thread and the callers of readring. A step is what no
    other thread can divide: a test of the size outside the lock, or one section under the lock. */
module MessageRing {

  const RING_SIZE := 10000

  /** AgentMessage::ALL */
  const ALL := 1

  datatype Message = Message(kind: nat, realm: string, node: string, proc: string, text: string)

  /** The three forms of readring. */
  datatype Filter =
    | ByProc(kind: nat, proc: string, node: string)
    | ByRealm(kind: nat, realm: string, node: string)
    | ByNodes(kind: nat, nodes: seq<string>)
  {
    predicate Matches(m: Message)
    {
      (kind == ALL || kind == m.kind) &&
      match this
      case ByProc(_, proc, node) => (proc == "" || proc == m.proc) && (node == "" || node == m.node)
      case ByRealm(_, realm, node) => (realm == "" || realm == m.realm) && (node == "" || node == m.node)
      case ByNodes(_, nodes) => nodes == [] || m.node in nodes
    }
  }

  // ---------- the threads ----------

  /** The message thread: between its test of the size and its push it holds a message. */
  datatype Producer = Idle | Holding(message: Message)

  /** Where a caller of readring is. */
  datatype Phase = Away | Clearing | Testing | Popping | Pausing | Found | TimedOut

  /** A caller, what it has popped since its call, and how many messages had left the queue before. */
  datatype Reader = Reader(phase: Phase, filter: Filter, popped: seq<Message>, start: nat)

  /** The queue and the threads; all that was ever accepted into the queue, and all that left it. */
  datatype State = State(
    queue: seq<Message>, producer: Producer, readers: seq<Reader>,
    accepted: seq<Message>, taken: seq<Message>)

  datatype Action =
    | Arrive(message: Message)
    | Push
    | Call(reader: nat, filter: Filter, head: bool)
    | Clear(reader: nat)
    | Test(reader: nat)
    | Pop(reader: nat)
    | Wait(reader: nat, expired: bool)

  predicate InPhase(s: State, i: nat, phase: Phase)
  {
    i < |s.readers| && s.readers[i].phase == phase
  }

  /** The step is the next one of its thread. front() needs an element. */
  predicate Enabled(s: State, a: Action)
  {
    match a
    case Arrive(_) => s.producer.Idle?
    case Push => s.producer.Holding?
    case Call(i, _, _) => InPhase(s, i, Away) || InPhase(s, i, Found) || InPhase(s, i, TimedOut)
    case Clear(i) => InPhase(s, i, Clearing)
    case Test(i) => InPhase(s, i, Testing)
    case Pop(i) => InPhase(s, i, Popping) && s.queue != []
    case Wait(i, _) => InPhase(s, i, Pausing)
  }

  function Next(s: State, a: Action): State
    requires Enabled(s, a)
  {
    match a
    case Arrive(m) => if |s.queue| < RING_SIZE then s.(producer := Holding(m)) else s
    case Push =>
      var m := s.producer.message;
      s.(producer := Idle, queue := s.queue + [m], accepted := s.accepted + [m])
    case Call(i, filter, head) =>
      s.(readers := s.readers[i := Reader(if head then Clearing else Testing, filter, [], |s.taken|)])
    case Clear(i) =>
      var r := s.readers[i].(phase := Testing, start := |s.taken| + |s.queue|);
      s.(queue := [], taken := s.taken + s.queue, readers := s.readers[i := r])
    case Test(i) =>
      s.(readers := s.readers[i := s.readers[i].(phase := if s.queue != [] then Popping else Pausing)])
    case Pop(i) =>
      var r, m := s.readers[i], s.queue[0];
      var phase := if r.filter.Matches(m) then Found else Testing;
      s.(queue := s.queue[1..], taken := s.taken + [m],
         readers := s.readers[i := r.(phase := phase, popped := r.popped + [m])])
    case Wait(i, expired) =>
      s.(readers := s.readers[i := s.readers[i].(phase := if expired then TimedOut else Testing)])
  }

  ghost predicate Initial(s: State)
  {
    && s.queue == [] && s.producer.Idle? && s.accepted == [] && s.taken == []
    && forall i | 0 <= i < |s.readers| :: s.readers[i].phase.Away? && s.readers[i].popped == [] && s.readers[i].start == 0
  }

  ghost predicate IsRunOf(states: seq<State>, actions: seq<Action>)
  {
    && |states| == |actions| + 1 && Initial(states[0])
    && forall i | 0 <= i < |actions| :: Enabled(states[i], actions[i]) && states[i + 1] == Next(states[i], actions[i])
  }

  /** A message that arrives is dropped exactly if the queue holds ten thousand; else it comes last. */
  lemma {:induction false} DroppedWhenFull(s: State, m: Message)
    requires Enabled(s, Arrive(m))
    ensures if |s.queue| >= 10000 then Next(s, Arrive(m)) == s
            else var t := Next(s, Arrive(m)); Enabled(t, Push) && Next(t, Push).queue == s.queue + [m]
  {
  }

  /** What the filters ask for: type 1 and empty texts ask for nothing, everything else has to be the same. */
  lemma {:induction false} FilterMeaning(m: Message, kind: nat, a: string, node: string, nodes: seq<string>)
    ensures ByProc(kind, a, node).Matches(m) <==>
              (kind == 1 || m.kind == kind) && (a == "" || a == m.proc) && (node == "" || node == m.node)
    ensures ByRealm(kind, a, node).Matches(m) <==>
              (kind == 1 || m.kind == kind) && (a == "" || a == m.realm) && (node == "" || node == m.node)
    ensures ByNodes(kind, nodes).Matches(m) <==>
              (kind == 1 || m.kind == kind) && (|nodes| == 0 || exists i :: 0 <= i < |nodes| && nodes[i] == m.node)
  {
  }

  // ---------- any number of readers ----------

  /** A reader goes on as long as nothing matches; it stops at the first message that does. */
  ghost predicate Honest(r: Reader)
  {
    if r.phase.Found? then
      r.popped != [] && r.filter.Matches(r.popped[|r.popped| - 1]) && NoneMatches(r.filter, r.popped[..|r.popped| - 1])
    else NoneMatches(r.filter, r.popped)
  }

  ghost predicate NoneMatches(filter: Filter, messages: seq<Message>)
  {
    forall k | 0 <= k < |messages| :: !filter.Matches(messages[k])
  }

  ghost predicate Sound(s: State)
  {
    && s.accepted == s.taken + s.queue
    && |s.queue| <= 10000 && (s.producer.Holding? ==> |s.queue| < 10000)
    && forall i | 0 <= i < |s.readers| :: Honest(s.readers[i])
  }

  lemma {:induction false} SoundStep(s: State, a: Action)
    requires Enabled(s, a) && Sound(s)
    ensures Sound(Next(s, a)) && |Next(s, a).readers| == |s.readers|
  {
    if a.Pop? {
      assert s.queue == [s.queue[0]] + s.queue[1..];
      var r := s.readers[a.reader];
      assert (r.popped + [s.queue[0]])[..|r.popped|] == r.popped;
    }
  }

  /** Under every interleaving, with any number of readers: what was accepted is what left the queue and
      then what is in it, in order; the queue is never longer than the ring; each reader has popped
      messages that do not match, up to the one it found. */
  lemma {:induction false} AlwaysSound(states: seq<State>, actions: seq<Action>, i: nat)
    requires IsRunOf(states, actions) && i < |states|
    ensures Sound(states[i]) && |states[i].readers| == |states[0].readers|
  {
    if i > 0 {
      AlwaysSound(states, actions, i - 1);
      SoundStep(states[i - 1], actions[i - 1]);
    }
  }

  // ---------- one reader ----------

  /** A reader that is about to call front() on an empty queue. */
  ghost predicate Underflows(s: State)
  {
    exists i :: InPhase(s, i, Popping) && s.queue == []
  }

  /** The only reader has popped all that left the queue since its call. */
  ghost predicate Alone(s: State)
  {
    && |s.readers| == 1
    && var r := s.readers[0];
       && (r.phase.Popping? ==> s.queue != [])
       && r.start <= |s.taken|
       && (!r.phase.Away? && !r.phase.Clearing? ==> s.taken[r.start..] == r.popped)
       && (r.phase.Clearing? ==> r.popped == [])
  }

  lemma {:induction false} AloneStep(s: State, a: Action)
    requires Enabled(s, a) && Alone(s)
    ensures Alone(Next(s, a))
  {
  }

  lemma {:induction false} AlwaysAlone(states: seq<State>, actions: seq<Action>, i: nat)
    requires IsRunOf(states, actions) && |states[0].readers| == 1 && i < |states|
    ensures Alone(states[i])
  {
    if i > 0 {
      AlwaysAlone(states, actions, i - 1);
      AloneStep(states[i - 1], actions[i - 1]);
    }
  }

  /** One reader never takes from an empty queue. */
  lemma {:induction false} OneReaderNeverUnderflows(states: seq<State>, actions: seq<Action>, i: nat)
    requires IsRunOf(states, actions) && |states[0].readers| == 1 && i < |states|
    ensures !Underflows(states[i])
  {
    AlwaysAlone(states, actions, i);
  }

  /** When its call ends with a message, that is the first matching one of all that were accepted and
      not gone at the call, those cleared by Where::HEAD left out, and only those before it are lost. */
  lemma {:induction false} FirstMatchIsFound(states: seq<State>, actions: seq<Action>, i: nat)
    requires IsRunOf(states, actions) && |states[0].readers| == 1 && i < |states|
    requires states[i].readers != [] && states[i].readers[0].phase.Found?
    ensures var s := states[i]; var r := s.readers[0]; var last := r.start + |r.popped| - 1;
      && r.start <= last < |s.accepted|
      && s.accepted[last] == r.popped[|r.popped| - 1] && r.filter.Matches(s.accepted[last])
      && (forall k | r.start <= k < last :: !r.filter.Matches(s.accepted[k]))
      && s.queue == s.accepted[last + 1..]
  {
    AlwaysSound(states, actions, i);
    AlwaysAlone(states, actions, i);
    var s := states[i];
    var r := s.readers[0];
    forall k | 0 <= k < |r.popped| ensures s.accepted[r.start + k] == r.popped[k] {
      assert s.taken[r.start..][k] == r.popped[k];
    }
    forall k | r.start <= k < r.start + |r.popped| - 1 ensures !r.filter.Matches(s.accepted[k]) {
      assert s.accepted[k] == r.popped[..|r.popped| - 1][k - r.start];
    }
  }

  /** Between steps c and i the reader makes no further call. */
  ghost predicate SameCall(actions: seq<Action>, c: nat, i: nat)
  {
    c < i <= |actions| && actions[c].Call? && forall k | c < k < i :: !actions[k].Call?
  }

  /** At state i the only reader has found the message accepted as number n: it is the first one from number `from`
      on that matches, and those behind it are left in the queue. */
  ghost predicate FindsFrom(s: State, filter: Filter, from: nat, n: nat)
  {
    && |s.readers| == 1 && s.readers[0].phase.Found? && s.readers[0].popped != []
    && from <= n < |s.accepted|
    && s.accepted[n] == s.readers[0].popped[|s.readers[0].popped| - 1] && filter.Matches(s.accepted[n])
    && (forall k | from <= k < n :: !filter.Matches(s.accepted[k]))
    && s.queue == s.accepted[n + 1..]
  }

  ghost predicate Finds(s: State, filter: Filter, from: nat)
  {
    exists n :: FindsFrom(s, filter, from, n)
  }

  /** A call for the tail of the ring has started with what was in the queue. */
  lemma {:induction false} CallStarts(states: seq<State>, actions: seq<Action>, c: nat, i: nat)
    requires IsRunOf(states, actions) && |states[0].readers| == 1 && SameCall(actions, c, i) && !actions[c].head
    ensures |states[i].readers| == 1
    ensures var r := states[i].readers[0];
      && r.filter == actions[c].filter && r.start == |states[c].accepted| - |states[c].queue|
      && !r.phase.Away? && !r.phase.Clearing?
    decreases i
  {
    hide Initial, Filter.Matches;
    assert Enabled(states[i - 1], actions[i - 1]) && states[i] == Next(states[i - 1], actions[i - 1]);
    if i == c + 1 {
      AlwaysSound(states, actions, c);
    } else {
      CallStarts(states, actions, c, i - 1);
    }
  }

  /** Until it clears the queue, a call for the head of the ring waits to do so. */
  lemma {:induction false} HeadWaits(states: seq<State>, actions: seq<Action>, c: nat, i: nat)
    requires IsRunOf(states, actions) && |states[0].readers| == 1 && SameCall(actions, c, i) && actions[c].head
    requires forall k | c < k < i :: !actions[k].Clear?
    ensures |states[i].readers| == 1
    ensures var r := states[i].readers[0]; r.filter == actions[c].filter && r.phase.Clearing? && r.popped == []
    decreases i
  {
    hide Initial, Filter.Matches;
    assert Enabled(states[i - 1], actions[i - 1]) && states[i] == Next(states[i - 1], actions[i - 1]);
    if i == c + 1 {
      AlwaysSound(states, actions, c);
    } else {
      HeadWaits(states, actions, c, i - 1);
    }
  }

  /** Right after its clearing step the queue is empty; from then on the call counts from what had been accepted
      by then. */
  lemma {:induction false} HeadClears(states: seq<State>, actions: seq<Action>, c: nat, k: nat, i: nat)
    requires IsRunOf(states, actions) && |states[0].readers| == 1 && SameCall(actions, c, i) && actions[c].head
    requires c < k < i && actions[k].Clear? && forall j | c < j < k :: !actions[j].Clear?
    ensures states[k + 1].queue == [] && states[k + 1].accepted == states[k].accepted
    ensures |states[i].readers| == 1
    ensures var r := states[i].readers[0];
      && r.filter == actions[c].filter && r.start == |states[k].accepted| && !r.phase.Away? && !r.phase.Clearing?
    decreases i
  {
    hide Initial, Filter.Matches;
    assert Enabled(states[i - 1], actions[i - 1]) && states[i] == Next(states[i - 1], actions[i - 1]);
    if i == k + 1 {
      AlwaysSound(states, actions, k);
      HeadWaits(states, actions, c, k);
    } else {
      HeadClears(states, actions, c, k, i - 1);
    }
  }

  /** What a call for the tail finds: the first match of what was in the queue at the call and what was accepted
      since. */
  lemma {:induction false} TailFinds(states: seq<State>, actions: seq<Action>, c: nat, i: nat)
    requires IsRunOf(states, actions) && |states[0].readers| == 1 && SameCall(actions, c, i) && !actions[c].head
    requires states[i].readers != [] && states[i].readers[0].phase.Found?
    ensures |states[c].queue| <= |states[c].accepted|
    ensures Finds(states[i], actions[c].filter, |states[c].accepted| - |states[c].queue|)
  {
    hide Filter.Matches, Initial, Next, Enabled;
    AlwaysSound(states, actions, c);
    CallStarts(states, actions, c, i);
    FirstMatchIsFound(states, actions, i);
    var r := states[i].readers[0];
    assert FindsFrom(states[i], actions[c].filter, r.start, r.start + |r.popped| - 1);
  }

  /** What a call for the head finds: it empties the queue, and the first match of what was accepted after that is
      found. Nothing accepted before is ever returned by it. */
  lemma {:induction false} HeadFinds(states: seq<State>, actions: seq<Action>, c: nat, k: nat, i: nat)
    requires IsRunOf(states, actions) && |states[0].readers| == 1 && SameCall(actions, c, i) && actions[c].head
    requires c < k < i && actions[k].Clear? && forall j | c < j < k :: !actions[j].Clear?
    requires states[i].readers != [] && states[i].readers[0].phase.Found?
    ensures states[k + 1].queue == []
    ensures Finds(states[i], actions[c].filter, |states[k].accepted|)
  {
    hide Filter.Matches, Initial, Next, Enabled;
    HeadClears(states, actions, c, k, i);
    FirstMatchIsFound(states, actions, i);
    var r := states[i].readers[0];
    assert FindsFrom(states[i], actions[c].filter, |states[k].accepted|, r.start + |r.popped| - 1);
  }

  /** The message found is the last one accepted exactly when none is left in the queue. */
  lemma {:induction false} FoundIsLast(states: seq<State>, actions: seq<Action>, i: nat)
    requires IsRunOf(states, actions) && |states[0].readers| == 1 && i < |states|
    requires states[i].readers != [] && states[i].readers[0].phase.Found?
    ensures var s := states[i]; var r := s.readers[0];
      r.start + |r.popped| == |s.accepted| <==> s.queue == []
  {
    FirstMatchIsFound(states, actions, i);
  }

  /** Step c calls without clearing the queue, and up to state i neither a further call nor a push follows. */
  ghost predicate QuietCall(actions: seq<Action>, c: nat, i: nat)
  {
    && c < i <= |actions| && actions[c].Call? && !actions[c].head
    && forall k | c < k < i :: !actions[k].Call? && !actions[k].Push?
  }

  /** Since its call the only reader has taken messages from the front of the queue, and nothing else happened
      to the queue. */
  lemma {:induction false} QuietCallTakes(states: seq<State>, actions: seq<Action>, c: nat, i: nat)
    requires IsRunOf(states, actions) && |states[0].readers| == 1 && QuietCall(actions, c, i)
    ensures |states[i].readers| == 1
    ensures var r := states[i].readers[0];
      && r.filter == actions[c].filter && !r.phase.Away? && !r.phase.Clearing?
      && r.popped + states[i].queue == states[c].queue
    decreases i
  {
    hide Initial, Filter.Matches;
    assert Enabled(states[i - 1], actions[i - 1]) && states[i] == Next(states[i - 1], actions[i - 1]);
    if i == c + 1 {
      AlwaysSound(states, actions, c);
    } else {
      QuietCallTakes(states, actions, c, i - 1);
      QuietStep(states[i - 1], actions[i - 1]);
    }
  }

  lemma {:induction false} QuietStep(s: State, a: Action)
    requires Enabled(s, a) && |s.readers| == 1 && !a.Call? && !a.Push?
    requires !s.readers[0].phase.Away? && !s.readers[0].phase.Clearing?
    ensures var t := Next(s, a);
      && |t.readers| == 1 && t.readers[0].filter == s.readers[0].filter
      && !t.readers[0].phase.Away? && !t.readers[0].phase.Clearing?
      && t.readers[0].popped + t.queue == s.readers[0].popped + s.queue
  {
    hide Filter.Matches;
    if a.Pop? {
      assert s.queue == [s.queue[0]] + s.queue[1..];
    }
  }

  /** Without a push during its call, the reader returns the last message of the queue as it was at the call
      exactly when no other message in it matches. */
  lemma {:induction false} LastOnlyIfNoOther(states: seq<State>, actions: seq<Action>, c: nat, i: nat)
    requires IsRunOf(states, actions) && |states[0].readers| == 1 && QuietCall(actions, c, i)
    requires states[i].readers != [] && states[i].readers[0].phase.Found?
    ensures var q := states[c].queue; var n := |states[i].readers[0].popped|;
      && 1 <= n <= |q| && states[i].readers[0].popped == q[..n]
      && (n == |q| <==> NoneMatches(actions[c].filter, q[..|q| - 1]))
  {
    hide Filter.Matches;
    QuietCallTakes(states, actions, c, i);
    AlwaysSound(states, actions, i);
    var q, r := states[c].queue, states[i].readers[0];
    var n := |r.popped|;
    assert Honest(r);
    assert r.popped == q[..n];
    assert q[n - 1] == r.popped[n - 1];
    if n == |q| {
      assert q[..|q| - 1] == r.popped[..n - 1];
    } else {
      assert q[..|q| - 1][n - 1] == q[n - 1];
    }
  }

  /** When its call times out, it has taken all that left the queue since its call, and none of it matched. */
  lemma {:induction false} TimedOutFoundNothing(states: seq<State>, actions: seq<Action>, i: nat)
    requires IsRunOf(states, actions) && |states[0].readers| == 1 && i < |states|
    requires states[i].readers != [] && states[i].readers[0].phase.TimedOut?
    ensures var s := states[i]; var r := s.readers[0];
      && r.start <= |s.taken| && r.popped == s.taken[r.start..]
      && s.accepted == s.taken + s.queue
      && forall k | r.start <= k < |s.taken| :: !r.filter.Matches(s.accepted[k])
  {
    AlwaysSound(states, actions, i);
    AlwaysAlone(states, actions, i);
    var s := states[i];
    var r := s.readers[0];
    forall k | r.start <= k < |s.taken| ensures !r.filter.Matches(s.accepted[k]) {
      assert s.accepted[k] == r.popped[k - r.start];
    }
  }

  // ---------- two readers and more ----------

  /** A run of the given actions, if each of them can be taken in turn, and the state it ends in. */
  ghost predicate Leads(first: State, actions: seq<Action>, last: State)
  {
    exists states :: IsRunOf(states, actions) && states[0] == first && states[|actions|] == last
  }

  lemma {:induction false} LeadsFurther(first: State, actions: seq<Action>, last: State, a: Action)
    requires Leads(first, actions, last) && Enabled(last, a)
    ensures Leads(first, actions + [a], Next(last, a))
  {
    hide Next, Enabled, Initial;
    var states :| IsRunOf(states, actions) && states[0] == first && states[|actions|] == last;
    var longer := states + [Next(last, a)];
    assert IsRunOf(longer, actions + [a]) && longer[0] == first && longer[|actions + [a]|] == Next(last, a);
  }

  lemma {:induction false} LeadsNowhere(first: State)
    requires Initial(first)
    ensures Leads(first, [], first)
  {
    assert IsRunOf([first], []);
  }

  /** Of two messages that match the call returns the first, and the second stays in the queue. */
  lemma {:induction false} FirstOfTwo(first: State, f: Filter, m1: Message, m2: Message)
    requires Initial(first) && |first.readers| == 1 && f.Matches(m1) && f.Matches(m2)
    ensures exists last ::
      && Leads(first, [Arrive(m1), Push, Arrive(m2), Push, Call(0, f, false), Test(0), Pop(0)], last)
      && |last.readers| == 1 && last.readers[0].phase.Found? && last.readers[0].popped == [m1] && last.queue == [m2]
  {
    hide Leads, Filter.Matches;
    LeadsNowhere(first);
    var s1 := Next(first, Arrive(m1));
    var actions := [] + [Arrive(m1)];
    LeadsFurther(first, [], first, Arrive(m1));
    var s2 := Next(s1, Push);
    LeadsFurther(first, actions, s1, Push);
    actions := actions + [Push];
    var s3 := Next(s2, Arrive(m2));
    LeadsFurther(first, actions, s2, Arrive(m2));
    actions := actions + [Arrive(m2)];
    var s4 := Next(s3, Push);
    LeadsFurther(first, actions, s3, Push);
    actions := actions + [Push];
    ReadsFirst(first, actions, s4, f, m1, m2);
    assert actions + [Call(0, f, false), Test(0), Pop(0)] ==
           [Arrive(m1), Push, Arrive(m2), Push, Call(0, f, false), Test(0), Pop(0)];
  }

  /** A call for the head drops the message that waits in the queue, even if it matches, and may time out. */
  lemma {:induction false} HeadDrops(first: State, f: Filter, m: Message)
    requires Initial(first) && |first.readers| == 1
    ensures exists last ::
      && Leads(first, [Arrive(m), Push, Call(0, f, true), Clear(0), Test(0), Wait(0, true)], last)
      && |last.readers| == 1 && last.readers[0].phase.TimedOut? && last.readers[0].popped == [] && last.queue == []
      && last.accepted == [m]
  {
    hide Leads, Filter.Matches;
    LeadsNowhere(first);
    var s1 := Next(first, Arrive(m));
    var actions := [] + [Arrive(m)];
    LeadsFurther(first, [], first, Arrive(m));
    var s2 := Next(s1, Push);
    LeadsFurther(first, actions, s1, Push);
    actions := actions + [Push];
    var s3 := Next(s2, Call(0, f, true));
    LeadsFurther(first, actions, s2, Call(0, f, true));
    actions := actions + [Call(0, f, true)];
    var s4 := Next(s3, Clear(0));
    LeadsFurther(first, actions, s3, Clear(0));
    actions := actions + [Clear(0)];
    var s5 := Next(s4, Test(0));
    LeadsFurther(first, actions, s4, Test(0));
    actions := actions + [Test(0)];
    LeadsFurther(first, actions, s5, Wait(0, true));
    assert actions + [Wait(0, true)] ==
           [Arrive(m), Push, Call(0, f, true), Clear(0), Test(0), Wait(0, true)];
  }

  lemma {:induction false} ReadsFirst(first: State, actions: seq<Action>, s: State, f: Filter, m1: Message, m2: Message)
    requires Leads(first, actions, s) && s.queue == [m1, m2] && f.Matches(m1)
    requires |s.readers| == 1 && InPhase(s, 0, Away)
    ensures exists last ::
      && Leads(first, actions + [Call(0, f, false), Test(0), Pop(0)], last) && |last.readers| == 1
      && last.readers[0].phase.Found? && last.readers[0].popped == [m1] && last.queue == [m2]
  {
    hide Leads, Filter.Matches;
    var s1 := Next(s, Call(0, f, false));
    LeadsFurther(first, actions, s, Call(0, f, false));
    var s2 := Next(s1, Test(0));
    LeadsFurther(first, actions + [Call(0, f, false)], s1, Test(0));
    var s3 := Next(s2, Pop(0));
    LeadsFurther(first, actions + [Call(0, f, false)] + [Test(0)], s2, Pop(0));
    assert actions + [Call(0, f, false)] + [Test(0)] + [Pop(0)] == actions + [Call(0, f, false), Test(0), Pop(0)];
  }

  /** Where two callers or more can call, two of them can both see the last message before either takes it. */
  lemma {:induction false} TwoReadersCanUnderflow(m: Message, f: Filter, first: State)
    requires Initial(first) && |first.readers| >= 2
    ensures exists actions, last :: Leads(first, actions, last) && Underflows(last)
  {
    hide Leads, Filter.Matches;
    LeadsNowhere(first);
    var s1 := Next(first, Arrive(m));
    LeadsFurther(first, [], first, Arrive(m));
    var s2 := Next(s1, Push);
    LeadsFurther(first, [] + [Arrive(m)], s1, Push);
    TwoCallsUnderflow(first, [] + [Arrive(m)] + [Push], s2, f);
  }

  lemma {:induction false} TwoCallsUnderflow(first: State, actions: seq<Action>, s: State, f: Filter)
    requires Leads(first, actions, s) && |s.queue| == 1
    requires |s.readers| >= 2 && InPhase(s, 0, Away) && InPhase(s, 1, Away)
    ensures exists actions, last :: Leads(first, actions, last) && Underflows(last)
  {
    hide Leads, Filter.Matches;
    var s1 := Next(s, Call(0, f, false));
    LeadsFurther(first, actions, s, Call(0, f, false));
    var s2 := Next(s1, Call(1, f, false));
    LeadsFurther(first, actions + [Call(0, f, false)], s1, Call(1, f, false));
    TwoTestsUnderflow(first, actions + [Call(0, f, false)] + [Call(1, f, false)], s2);
  }

  lemma {:induction false} TwoTestsUnderflow(first: State, actions: seq<Action>, s: State)
    requires Leads(first, actions, s) && |s.queue| == 1
    requires |s.readers| >= 2 && InPhase(s, 0, Testing) && InPhase(s, 1, Testing)
    ensures exists actions, last :: Leads(first, actions, last) && Underflows(last)
  {
    hide Leads, Filter.Matches;
    var s1 := Next(s, Test(0));
    LeadsFurther(first, actions, s, Test(0));
    var s2 := Next(s1, Test(1));
    LeadsFurther(first, actions + [Test(0)], s1, Test(1));
    var s3 := Next(s2, Pop(0));
    LeadsFurther(first, actions + [Test(0)] + [Test(1)], s2, Pop(0));
    assert InPhase(s3, 1, Popping) && s3.queue == [];
  }

  lemma {:induction false} FewReadersAreSafe(first: State, actions: seq<Action>, last: State)
    requires Leads(first, actions, last) && |first.readers| <= 1
    ensures !Underflows(last)
  {
    var states :| IsRunOf(states, actions) && states[0] == first && states[|actions|] == last;
    if |first.readers| == 1 {
      OneReaderNeverUnderflows(states, actions, |actions|);
    } else {
      AlwaysSound(states, actions, |actions|);
    }
  }

  /** The queue can be taken from when it is empty exactly when there are two callers or more. */
  lemma {:induction false} UnderflowExactly(first: State)
    requires Initial(first)
    ensures (exists actions, last :: Leads(first, actions, last) && Underflows(last)) <==> |first.readers| >= 2
  {
    hide Leads, Underflows;
    if |first.readers| >= 2 {
      TwoReadersCanUnderflow(Message(0, "", "", "", ""), ByProc(ALL, "", ""), first);
    }
    if exists actions, last :: Leads(first, actions, last) && Underflows(last) {
      var actions, last :| Leads(first, actions, last) && Underflows(last);
      if |first.readers| <= 1 {
        FewReadersAreSafe(first, actions, last);
      }
    }
  }
}
