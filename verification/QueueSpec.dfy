/** What the operations of the command queue do, on values. */
module QueueSpec {
  import opened Events

  const HISTORY_SIZE := 10

  /** The log date moves on by this after every command or request, in days. */
  const LOG_STEP := 1.0 / 864000.0

  // ---------- one event in a pass ----------

  datatype Fate =
    | Untouched  // solo, or not yet due
    | Reset      // its condition is not true: it may fire again
    | Waiting    // its condition is true, but it has fired already
    | Runs       // unconditional
    | Fires      // conditional: runs, goes, and ends the pass
    | Repeats    // conditional and repeating: runs, stays, and ends the pass

  function Judge(e: Event, look: Look): Fate
  {
    if e.IsSolo() || !e.IsReady(look.now) then Untouched
    else if !e.IsConditional() then Runs
    else if !e.ConditionTrue(look.holds) then Reset
    else if !e.IsRepeat() then Fires
    else if e.IsAlreadyRun() then Waiting
    else Repeats
  }

  predicate Ends(f: Fate) { f.Fires? || f.Repeats? }

  predicate Removes(f: Fate) { f.Runs? || f.Fires? }

  predicate IsRun(f: Fate) { Ends(f) || Removes(f) }

  /** The event as it is handed to a shell or to the agent. */
  function Handed(e: Event, look: Look): Event
  {
    var seen := if e.IsConditional() then e.Counted(look.holds) else e;
    if e.IsExecutable() then seen.SetExecuted(look.stamp) else seen
  }

  /** The event as the history keeps it. */
  function Record(e: Event, look: Look): Event
  {
    if Judge(e, look).Repeats? then Handed(e, look).SetAlreadyRun(true) else Handed(e, look)
  }

  /** The event as the pass leaves it in the queue. */
  function Left(e: Event, look: Look): Event
  {
    match Judge(e, look)
    case Reset => e.Counted(look.holds).SetAlreadyRun(false)
    case Waiting => e.Counted(look.holds)
    case Repeats => Record(e, look)
    case _ => e
  }

  // ---------- a pass ----------

  datatype Handover = Handover(event: Event, date: real)

  datatype Pass = Pass(left: seq<Event>, ran: seq<Event>, sent: seq<Handover>)

  predicate IsHandedOver(e: Event, look: Look)
  {
    IsRun(Judge(e, look)) && e.IsExecutable()
  }

  function NextDate(e: Event, look: Look, date: real): real
  {
    if IsHandedOver(e, look) then date + LOG_STEP else date
  }

  /** One run over the queue: env[k] is what is seen when event k is reached. */
  function RunPass(q: seq<Event>, env: seq<Look>, date: real): Pass
    requires |q| <= |env|
  {
    if q == [] then Pass([], [], [])
    else
      var f := Judge(q[0], env[0]);
      var stays := if Removes(f) then [] else [Left(q[0], env[0])];
      var ran := if IsRun(f) then [Record(q[0], env[0])] else [];
      var sent := if IsHandedOver(q[0], env[0]) then [Handover(Handed(q[0], env[0]), date)] else [];
      if Ends(f) then Pass(stays + q[1..], ran, sent)
      else
        var rest := RunPass(q[1..], env[1..], NextDate(q[0], env[0], date));
        Pass(stays + rest.left, ran + rest.ran, sent + rest.sent)
  }

  /** The position of the event that ends the pass, or the length of the queue. */
  function Stop(q: seq<Event>, env: seq<Look>): (n: nat)
    requires |q| <= |env|
    ensures n <= |q|
    ensures forall k | 0 <= k < n :: !Ends(Judge(q[k], env[k]))
    ensures n < |q| ==> Ends(Judge(q[n], env[n]))
  {
    if q == [] || Ends(Judge(q[0], env[0])) then 0 else 1 + Stop(q[1..], env[1..])
  }

  // ---------- the other operations ----------

  /** add_command: an event of the same name is replaced where it stands. */
  function Added(q: seq<Event>, e: Event): seq<Event>
  {
    if q == [] then [e]
    else if q[0].name == e.name then [e] + q[1..]
    else [q[0]] + Added(q[1..], e)
  }

  predicate Names(q: seq<Event>, name: string)
  {
    exists k :: 0 <= k < |q| && q[k].name == name
  }

  /** del_command for an event. */
  function Deleted(q: seq<Event>, e: Event): seq<Event>
  {
    if q == [] then []
    else if e.Same(q[0]) then Deleted(q[1..], e)
    else [q[0]] + Deleted(q[1..], e)
  }

  /** del_command for a position. */
  function DeletedAt(q: seq<Event>, position: nat): seq<Event>
    requires position < |q|
  {
    q[..position] + q[position + 1..]
  }

  /** operator< of strings. */
  predicate Before(a: string, b: string)
  {
    b != "" && (a == "" || a[0] < b[0] || (a[0] == b[0] && Before(a[1..], b[1..])))
  }

  /** Puts e in front of everything that is not before it. */
  function Inserted(e: Event, q: seq<Event>, time: real -> string): seq<Event>
  {
    if q != [] && Before(time(q[0].mjd), time(e.mjd)) then [q[0]] + Inserted(e, q[1..], time)
    else [e] + q
  }

  /** The stable sort by time; time(mjd) is the ISO 8601 text of a date. */
  function Sorted(q: seq<Event>, time: real -> string): seq<Event>
  {
    if q == [] then [] else Inserted(q[0], Sorted(q[1..], time), time)
  }

  // ---------- runs ----------

  /** The last ten of everything that ran. */
  function Recent(ran: seq<Event>): seq<Event>
  {
    if |ran| <= HISTORY_SIZE then ran else ran[|ran| - HISTORY_SIZE..]
  }

  /** A queue, with everything that ever ran and everything that was ever handed over. */
  datatype State = State(commands: seq<Event>, changed: bool, ran: seq<Event>, sent: seq<Handover>)

  datatype Operation =
    | Add(event: Event)
    | Delete(event: Event)
    | DeleteAt(position: nat)
    | Sort(time: real -> string)
    | RunCommands(env: seq<Look>, date: real)

  /** A position has to be one of the queue; the environment has to cover the queue. */
  predicate Allowed(s: State, op: Operation)
  {
    match op
    case DeleteAt(position) => position < |s.commands|
    case RunCommands(env, _) => |s.commands| <= |env|
    case _ => true
  }

  function Apply(s: State, op: Operation): State
    requires Allowed(s, op)
  {
    match op
    case Add(e) => s.(commands := Added(s.commands, e), changed := true)
    case Delete(e) => s.(commands := Deleted(s.commands, e), changed := true)
    case DeleteAt(position) => s.(commands := DeletedAt(s.commands, position), changed := true)
    case Sort(time) => s.(commands := Sorted(s.commands, time))
    case RunCommands(env, date) =>
      var pass := RunPass(s.commands, env, date);
      State(pass.left, s.changed || pass.sent != [], s.ran + pass.ran, s.sent + pass.sent)
  }

  const EMPTY := State([], false, [], [])

  /** Each state of a run is reached from the one before by an allowed operation. */
  ghost predicate IsRunOf(states: seq<State>, ops: seq<Operation>)
  {
    && |states| == |ops| + 1
    && forall i | 0 <= i < |ops| :: Allowed(states[i], ops[i]) && states[i + 1] == Apply(states[i], ops[i])
  }

  ghost predicate UniqueNames(q: seq<Event>)
  {
    forall i, j | 0 <= i < j < |q| :: q[i].name != q[j].name
  }

  ghost predicate InOrder(q: seq<Event>, time: real -> string)
  {
    forall i, j | 0 <= i < j < |q| :: !Before(time(q[j].mjd), time(q[i].mjd))
  }
}
