/** command_queue.h sort: the queue in time order, events of one time in their old order. */
module QueueSort {
  import opened Events
  import opened QueueSpec

  // ---------- the order of strings ----------

  lemma {:induction false} BeforeIsAsymmetric(a: string, b: string)
    ensures Before(a, b) ==> !Before(b, a)
    ensures !Before(a, b) && !Before(b, a) ==> a == b
  {
    if a != "" && b != "" && a[0] == b[0] {
      BeforeIsAsymmetric(a[1..], b[1..]);
      assert a == [a[0]] + a[1..] && b == [b[0]] + b[1..];
    }
  }

  /** The order of a dictionary: a is a proper beginning of b, or smaller where they first differ. */
  lemma {:induction false} BeforeIsLexicographic(a: string, b: string)
    ensures Before(a, b) <==>
      exists k :: 0 <= k <= |a| && k < |b| && a[..k] == b[..k] && (k == |a| || a[k] < b[k])
  {
    if b != "" && (a == "" || a[0] < b[0]) {
      assert a[..0] == b[..0];
    } else if a != "" && b != "" && a[0] == b[0] {
      BeforeIsLexicographic(a[1..], b[1..]);
      var c, d := a[1..], b[1..];
      if k :| 0 <= k <= |c| && k < |d| && c[..k] == d[..k] && (k == |c| || c[k] < d[k]) {
        assert a[..k + 1] == [a[0]] + a[1..][..k] && b[..k + 1] == [b[0]] + b[1..][..k];
      }
      if k :| 0 <= k <= |a| && k < |b| && a[..k] == b[..k] && (k == |a| || a[k] < b[k]) {
        assert k > 0;
        assert a[1..][..k - 1] == a[..k][1..] && b[1..][..k - 1] == b[..k][1..];
      }
    } else if k :| 0 <= k <= |a| && k < |b| && a[..k] == b[..k] && (k == |a| || a[k] < b[k]) {
      assert k > 0 ==> a[..k][0] == b[..k][0];
    }
  }

  lemma {:induction false} NotBeforeIsTransitive(a: string, b: string, c: string)
    requires !Before(b, a) && !Before(c, b)
    ensures !Before(c, a)
  {
    if a != "" && b != "" && c != "" && a[0] == b[0] == c[0] {
      NotBeforeIsTransitive(a[1..], b[1..], c[1..]);
    }
  }

  // ---------- the sort ----------

  /** The events of one time, in queue order. */
  function AtTime(q: seq<Event>, time: real -> string, t: string): seq<Event>
  {
    if q == [] then [] else (if time(q[0].mjd) == t then [q[0]] else []) + AtTime(q[1..], time, t)
  }

  lemma {:induction false} AtTimeCons(e: Event, q: seq<Event>, time: real -> string, t: string)
    ensures AtTime([e] + q, time, t) == (if time(e.mjd) == t then [e] else []) + AtTime(q, time, t)
  {
    assert ([e] + q)[1..] == q;
  }

  lemma {:induction false} AtTimeTail(q: seq<Event>, time: real -> string, t: string)
    requires q != []
    ensures AtTime(q[1..], time, t) == AtTime(q, time, t)[if time(q[0].mjd) == t then 1 else 0..]
  {
  }

  lemma {:induction false} InOrderCons(e: Event, q: seq<Event>, time: real -> string)
    requires InOrder(q, time) && (q != [] ==> !Before(time(q[0].mjd), time(e.mjd)))
    ensures InOrder([e] + q, time)
  {
    var r := [e] + q;
    forall j | 0 < j < |r| ensures !Before(time(r[j].mjd), time(e.mjd)) {
      assert j > 1 ==> !Before(time(q[j - 1].mjd), time(q[0].mjd));
      if j > 1 {
        NotBeforeIsTransitive(time(e.mjd), time(q[0].mjd), time(q[j - 1].mjd));
      }
    }
  }

  lemma {:induction false} InsertedInOrder(e: Event, q: seq<Event>, time: real -> string)
    requires InOrder(q, time)
    ensures InOrder(Inserted(e, q, time), time)
    ensures Inserted(e, q, time)[0] == e || (q != [] && Inserted(e, q, time)[0] == q[0])
    ensures multiset(Inserted(e, q, time)) == multiset{e} + multiset(q)
    decreases q
  {
    hide InOrder;
    if q != [] && Before(time(q[0].mjd), time(e.mjd)) {
      InOrderTail(q, time);
      InsertedInOrder(e, q[1..], time);
      BeforeIsAsymmetric(time(q[0].mjd), time(e.mjd));
      InOrderCons(q[0], Inserted(e, q[1..], time), time);
      assert q == [q[0]] + q[1..];
    } else {
      InOrderCons(e, q, time);
    }
  }

  lemma {:induction false} InOrderTail(q: seq<Event>, time: real -> string)
    requires q != [] && InOrder(q, time)
    ensures InOrder(q[1..], time)
    ensures |q| > 1 ==> !Before(time(q[1].mjd), time(q[0].mjd))
  {
  }

  lemma {:induction false} InsertedIsStable(e: Event, q: seq<Event>, time: real -> string, t: string)
    ensures AtTime(Inserted(e, q, time), time, t) == AtTime([e] + q, time, t)
    decreases q
  {
    AtTimeCons(e, q, time, t);
    if q != [] && Before(time(q[0].mjd), time(e.mjd)) {
      InsertedIsStable(e, q[1..], time, t);
      AtTimeCons(q[0], Inserted(e, q[1..], time), time, t);
      AtTimeCons(e, q[1..], time, t);
      BeforeIsAsymmetric(time(q[0].mjd), time(e.mjd));
    }
  }

  /** Sorting puts the queue in order and keeps its events; events of one time stay as they were. */
  lemma {:induction false} SortedIsStableSort(q: seq<Event>, time: real -> string)
    ensures InOrder(Sorted(q, time), time)
    ensures multiset(Sorted(q, time)) == multiset(q)
    ensures forall t :: AtTime(Sorted(q, time), time, t) == AtTime(q, time, t)
  {
    hide Inserted;
    if q != [] {
      var rest := Sorted(q[1..], time);
      SortedIsStableSort(q[1..], time);
      InsertedInOrder(q[0], rest, time);
      assert q == [q[0]] + q[1..];
      forall t ensures AtTime(Sorted(q, time), time, t) == AtTime(q, time, t) {
        InsertedIsStable(q[0], rest, time, t);
        AtTimeCons(q[0], rest, time, t);
        AtTimeCons(q[0], q[1..], time, t);
      }
    }
  }

  lemma {:induction false} FirstIsEarliest(q: seq<Event>, time: real -> string, t: string)
    requires InOrder(q, time) && AtTime(q, time, t) != []
    ensures q != [] && !Before(t, time(q[0].mjd))
  {
    AtTimeMember(q, time, t, AtTime(q, time, t)[0]);
    BeforeIsAsymmetric(t, t);
  }

  lemma {:induction false} FirstIsFirstOfItsTime(q: seq<Event>, time: real -> string)
    requires q != []
    ensures AtTime(q, time, time(q[0].mjd)) != [] && AtTime(q, time, time(q[0].mjd))[0] == q[0]
  {
  }

  lemma {:induction false} AtTimeMember(q: seq<Event>, time: real -> string, t: string, e: Event)
    requires e in AtTime(q, time, t)
    ensures time(e.mjd) == t && exists k :: 0 <= k < |q| && q[k] == e
  {
    if time(q[0].mjd) == t && AtTime(q, time, t)[0] == e {
      assert q[0] == e;
    } else {
      AtTimeMember(q[1..], time, t, e);
      var k :| 0 <= k < |q[1..]| && q[1..][k] == e;
      assert q[k + 1] == e;
    }
  }

  /** Nothing but the result of Sorted is in order and keeps the events of each time as they were, so
      any stable sort, the library's too, gives it. */
  lemma {:induction false} StableSortIsUnique(q: seq<Event>, p: seq<Event>, time: real -> string)
    requires InOrder(q, time) && InOrder(p, time)
    requires forall t :: AtTime(q, time, t) == AtTime(p, time, t)
    ensures q == p
    decreases |q| + |p|
  {
    if q != [] { FirstIsFirstOfItsTime(q, time); }
    if p != [] { FirstIsFirstOfItsTime(p, time); }
    if q != [] && p != [] {
      var t, u := time(q[0].mjd), time(p[0].mjd);
      FirstIsEarliest(p, time, t);
      FirstIsEarliest(q, time, u);
      BeforeIsAsymmetric(t, u);
      assert AtTime(p, time, t)[0] == p[0];
      forall v ensures AtTime(q[1..], time, v) == AtTime(p[1..], time, v) {
        AtTimeTail(q, time, v);
        AtTimeTail(p, time, v);
      }
      StableSortIsUnique(q[1..], p[1..], time);
      assert q == [q[0]] + q[1..] && p == [p[0]] + p[1..];
    }
  }
}
