/** event.h and event.cpp: one queued event, its flag bits and its condition counter. */
module Events {
  import opened BitStrings

  const UINT32_RANGE := 0x1_0000_0000

  const EVENT_TYPE_REQUEST := 0x1001
  const EVENT_TYPE_COMMAND := 0x2000

  /** A 32-bit flag word: bit k is at index k. */
  type Flags = f: Bits | |f| == 32 witness Zeros(32)

  const FLAG_ACTUAL := 15
  const FLAG_CONDITIONAL := 16
  const FLAG_REPEAT := 17
  const FLAG_TRUE := 18
  const FLAG_SOLO := 19

  /** What the pass sees when it reaches an event: the clock, the time stamped on a run, and whether
      the event's equation evaluates to 1. */
  datatype Look = Look(now: real, stamp: real, holds: bool)

  datatype Event = Event(
    mjd: real, utcexec: real, timeout: real, name: string, kind: nat, flag: Flags,
    data: string, condition: string, trueCount: nat)
  {
    predicate IsReady(now: real) { mjd <= now }

    predicate IsSolo() { flag[FLAG_SOLO] }

    predicate IsRepeat() { flag[FLAG_REPEAT] }

    predicate IsConditional() { flag[FLAG_CONDITIONAL] }

    predicate IsAlreadyRun() { flag[FLAG_TRUE] }

    /** run_commands hands on these two types only. */
    predicate IsExecutable() { kind == EVENT_TYPE_COMMAND || kind == EVENT_TYPE_REQUEST }

    function SetAlreadyRun(value: bool): Event
    {
      this.(flag := flag[FLAG_TRUE := value])
    }

    function SetExecuted(stamp: real): Event
    {
      this.(utcexec := stamp, flag := flag[FLAG_ACTUAL := true])
    }

    /** 5 * (flag & EVENT_FLAG_PRIORITY) / 32, the priority field lying at bits 4 to 6. */
    function Threshold(): nat
    {
      5 * (16 * Value(flag[4..7])) / 32
    }

    /** The event after its condition was looked at. */
    function Counted(holds: bool): Event
    {
      if holds then this.(trueCount := (trueCount + 1) % UINT32_RANGE) else this
    }

    /** The answer of condition_true. */
    predicate ConditionTrue(holds: bool)
    {
      holds && Counted(true).trueCount >= Threshold()
    }

    /** operator==, which compares all but the time-out and the counter. */
    predicate Same(other: Event)
    {
      && name == other.name && mjd == other.mjd && utcexec == other.utcexec && kind == other.kind
      && flag == other.flag && data == other.data && condition == other.condition
    }
  }

  // ---------- the counter ----------

  /** The event after its condition was looked at once for each answer. */
  function CountedAll(e: Event, answers: seq<bool>): Event
    decreases answers
  {
    if answers == [] then e else CountedAll(e.Counted(answers[0]), answers[1..])
  }

  function Trues(answers: seq<bool>): (n: nat)
    ensures n <= |answers|
  {
    if answers == [] then 0 else (if answers[0] then 1 else 0) + Trues(answers[1..])
  }

  lemma {:induction false} CounterCountsTrues(e: Event, answers: seq<bool>)
    requires e.trueCount + Trues(answers) < UINT32_RANGE
    ensures CountedAll(e, answers) == e.(trueCount := e.trueCount + Trues(answers))
    decreases answers
  {
    if answers != [] {
      CounterCountsTrues(e.Counted(answers[0]), answers[1..]);
    }
  }

  /** The counter is never reset: the condition of a fresh event is answered with true exactly when it
      holds now and has held, in all and not in a row, as often as its priority asks. */
  lemma {:induction false} ConditionNeedsTotalCount(e: Event, answers: seq<bool>, holds: bool)
    requires e.trueCount == 0 && |answers| < UINT32_RANGE - 1
    ensures CountedAll(e, answers).ConditionTrue(holds)
       <==> holds && Trues(answers) + 1 >= e.Threshold()
  {
    CounterCountsTrues(e, answers);
  }

  function Alternating(n: nat): (r: seq<bool>)
    ensures |r| == 2 * n && Trues(r) == n
  {
    if n == 0 then [] else [true, false] + Alternating(n - 1)
  }

  /** So a condition that never holds twice in a row still fires, at every priority. */
  lemma {:induction false} FlickeringConditionFires(e: Event)
    requires e.trueCount == 0
    ensures CountedAll(e, Alternating(e.Threshold())).ConditionTrue(true)
  {
    ThresholdBound(e);
    ConditionNeedsTotalCount(e, Alternating(e.Threshold()), true);
  }

  lemma {:induction false} ThresholdBound(e: Event)
    ensures e.Threshold() <= 17
  {
    FromNatOfValue(e.flag[4..7]);
    assert Power2(3) == 8;
  }
}
