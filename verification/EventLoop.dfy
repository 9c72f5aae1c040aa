/** event_loop.cpp: one pass over the queued tasks, and handing one captured batch
    of events to their handlers while handlers remove events from the loop. */
module EventLoop {
  import opened Wrappers

  /** An event is identified by its `reactor_event`. */
  type EventId = nat

  /** What one handler does: which events it removes, whether it throws, and
      whether `stop_` is seen after it. */
  datatype Conduct = Conduct(removes: seq<EventId>, throws: bool, stops: bool)

  type TaskId = nat

  /** What happens while one task runs: what is pushed, by the task itself or by
      other threads, and whether `stop_` is seen after it. */
  datatype Effect = Effect(pushes: seq<TaskId>, stops: bool)

  /** All pushes of the first `n` tasks, in order. */
  function Pushes(effects: seq<Effect>, n: nat): seq<TaskId>
    requires n <= |effects|
  {
    if n == 0 then [] else Pushes(effects, n - 1) + effects[n - 1].pushes
  }

  /** Part `i` of the queue, between its cuts, is what was pushed while task `i` ran. */
  ghost predicate PartIs(taskq: seq<TaskId>, effects: seq<Effect>, cuts: seq<nat>, i: nat)
    requires i < |effects| && i + 1 < |cuts|
  {
    cuts[i] <= cuts[i + 1] <= |taskq| && taskq[cuts[i]..cuts[i + 1]] == effects[i].pushes
  }

  /** The queue falls into consecutive parts, from its start to its end, one for each of
      the first `n` tasks: nothing pushed is lost, added or out of order. */
  ghost predicate Cut(taskq: seq<TaskId>, effects: seq<Effect>, cuts: seq<nat>, n: nat)
    requires n <= |effects|
  {
    && |cuts| == n + 1 && cuts[0] == 0 && cuts[n] == |taskq|
    && (forall i :: 0 <= i < n ==> PartIs(taskq, effects, cuts, i))
  }

  lemma CutStep(taskq: seq<TaskId>, effects: seq<Effect>, cuts: seq<nat>, n: nat)
    requires n < |effects| && Cut(taskq, effects, cuts, n)
    ensures var q := taskq + effects[n].pushes; Cut(q, effects, cuts + [|q|], n + 1)
  {
    var q, more := taskq + effects[n].pushes, cuts + [|taskq| + |effects[n].pushes|];
    forall i | 0 <= i < n + 1
      ensures PartIs(q, effects, more, i)
    {
      if i < n {
        assert PartIs(taskq, effects, cuts, i);
        assert q[cuts[i]..cuts[i + 1]] == taskq[cuts[i]..cuts[i + 1]];
      }
    }
  }

  /** The events gone after the handler of `e`: a throwing handler's event is
      removed as well. */
  function Gone(e: EventId, c: Conduct): (r: seq<EventId>)
    ensures forall x :: x in r <==> x in c.removes || (c.throws && x == e)
  {
    c.removes + if c.throws then [e] else []
  }

  /** Was `events[i]` removed by one of the handlers that ran before it? */
  ghost predicate RemovedBefore(events: seq<EventId>, handlers: seq<Conduct>, ran: seq<nat>, i: nat)
    requires i < |events| == |handlers|
  {
    exists k :: k in ran && k < i && events[i] in Gone(events[k], handlers[k])
  }

  /** `ran` lists, in order, the positions below `n` whose event no earlier handler
      of the batch removed. */
  ghost predicate Filtered(events: seq<EventId>, handlers: seq<Conduct>, n: nat, ran: seq<nat>)
    requires n <= |events| == |handlers|
  {
    && (forall i, j :: 0 <= i < j < |ran| ==> ran[i] < ran[j])
    && (forall k :: k in ran ==> k < n)
    && (forall i :: 0 <= i < n ==> (i in ran <==> !RemovedBefore(events, handlers, ran, i)))
  }

  /** The filter is determined by the batch. */
  lemma FilteredUnique(events: seq<EventId>, handlers: seq<Conduct>, n: nat,
                       a: seq<nat>, b: seq<nat>)
    requires |events| == |handlers|
    requires n <= |events| && Filtered(events, handlers, n, a) && Filtered(events, handlers, n, b)
    ensures a == b
  {
    SameMembers(events, handlers, n, a, b);
    IncreasingEqual(a, b);
  }

  lemma SameMembers(events: seq<EventId>, handlers: seq<Conduct>, n: nat, a: seq<nat>, b: seq<nat>)
    requires |events| == |handlers|
    requires n <= |events| && Filtered(events, handlers, n, a) && Filtered(events, handlers, n, b)
    ensures forall i :: i in a <==> i in b
  {
    SameBelow(events, handlers, n, n, a, b);
  }

  lemma {:induction false} SameBelow(events: seq<EventId>, handlers: seq<Conduct>, n: nat, m: nat,
                                     a: seq<nat>, b: seq<nat>)
    requires |events| == |handlers|
    requires m <= n <= |events| && Filtered(events, handlers, n, a) && Filtered(events, handlers, n, b)
    ensures forall i :: 0 <= i < m ==> (i in a <==> i in b)
  {
    if m > 0 {
      SameBelow(events, handlers, n, m - 1, a, b);
      assert RemovedBefore(events, handlers, a, m - 1) <==> RemovedBefore(events, handlers, b, m - 1);
    }
  }

  lemma {:induction false} IncreasingEqual(a: seq<nat>, b: seq<nat>)
    requires forall i, j :: 0 <= i < j < |a| ==> a[i] < a[j]
    requires forall i, j :: 0 <= i < j < |b| ==> b[i] < b[j]
    requires forall x :: x in a <==> x in b
    ensures a == b
  {
    assert b != [] ==> b[0] in b;
    if a != [] {
      assert a[0] in b;
      assert b[0] in a;
      assert a[0] == b[0];
      forall x
        ensures x in a[1..] <==> x in b[1..]
      {
        assert x in a[1..] ==> x in a && x != a[0];
        assert x in b[1..] ==> x in b && x != b[0];
        assert a == [a[0]] + a[1..] && b == [b[0]] + b[1..];
      }
      IncreasingEqual(a[1..], b[1..]);
    }
  }

  /** What one more handler that ran adds to the removed events. */
  lemma RemovedStep(events: seq<EventId>, handlers: seq<Conduct>, i: nat, ran: seq<nat>)
    requires i < |events| == |handlers|
    ensures forall j :: 0 <= j < |events| ==>
              (RemovedBefore(events, handlers, ran + [i], j) <==>
               RemovedBefore(events, handlers, ran, j) || (i < j && events[j] in Gone(events[i], handlers[i])))
  {
    var more := ran + [i];
    forall j | 0 <= j < |events|
      ensures RemovedBefore(events, handlers, more, j) <==>
              RemovedBefore(events, handlers, ran, j) || (i < j && events[j] in Gone(events[i], handlers[i]))
    {
      if i < j && events[j] in Gone(events[i], handlers[i]) {
        assert i in more;
      }
      if RemovedBefore(events, handlers, ran, j) {
        var k :| k in ran && k < j && events[j] in Gone(events[k], handlers[k]);
        assert k in more;
      }
    }
  }

  /** Deciding about one more position. */
  lemma FilteredStep(events: seq<EventId>, handlers: seq<Conduct>, i: nat, ran: seq<nat>)
    requires i < |events| == |handlers| && Filtered(events, handlers, i, ran)
    ensures RemovedBefore(events, handlers, ran, i) ==> Filtered(events, handlers, i + 1, ran)
    ensures !RemovedBefore(events, handlers, ran, i) ==> Filtered(events, handlers, i + 1, ran + [i])
  {
    RemovedStep(events, handlers, i, ran);
    assert forall x :: 0 <= x < |ran| ==> ran[x] in ran;
    if !RemovedBefore(events, handlers, ran, i) {
      assert forall j :: j in ran + [i] <==> j in ran || j == i;
    }
  }

  /** The handler of `events[i]` removes its own event, nulling the slot it is called
      through, and then throws. */
  predicate CrashesAt(events: seq<EventId>, handlers: seq<Conduct>, i: nat)
    requires i < |events| == |handlers|
  {
    i >= 1 && handlers[i].throws && events[i] in handlers[i].removes
  }

  /** Does one of the handlers in `ran` do so? */
  ghost predicate Crashes(events: seq<EventId>, handlers: seq<Conduct>, ran: seq<nat>)
    requires |events| == |handlers|
  {
    exists i :: i in ran && i < |events| && CrashesAt(events, handlers, i)
  }

  /** The events removed by the handlers in `ran`. */
  ghost function AllGone(events: seq<EventId>, handlers: seq<Conduct>, ran: seq<nat>): set<EventId>
    requires |events| == |handlers|
  {
    set i, e | i in ran && i < |events| && e in Gone(events[i], handlers[i]) :: e
  }

  /** Did one of the handlers in `ran` remove `e`, or throw as the handler of `e`? */
  ghost predicate GoneBy(events: seq<EventId>, handlers: seq<Conduct>, ran: seq<nat>, e: EventId)
    requires |events| == |handlers|
  {
    exists i :: i in ran && i < |events| && (e in handlers[i].removes || (handlers[i].throws && e == events[i]))
  }

  lemma GoneExactly(events: seq<EventId>, handlers: seq<Conduct>, ran: seq<nat>)
    requires |events| == |handlers|
    ensures forall e :: e in AllGone(events, handlers, ran) <==> GoneBy(events, handlers, ran, e)
  {
    forall e
      ensures e in AllGone(events, handlers, ran) <==> GoneBy(events, handlers, ran, e)
    {
      if i :| i in ran && i < |events| && e in Gone(events[i], handlers[i]) {
        assert GoneBy(events, handlers, ran, e);
      }
    }
  }

  /** The smallest batch that ends in a null dereference: the second handler removes
      its own event and throws.  The first one may do the same. */
  lemma CrashWitness() returns (events: seq<EventId>, handlers: seq<Conduct>, ran: seq<nat>)
    ensures |events| == |handlers| == 2 && Filtered(events, handlers, 2, ran)
    ensures 1 in ran && CrashesAt(events, handlers, 1)
    ensures handlers[0].throws && events[0] in handlers[0].removes && !CrashesAt(events, handlers, 0)
  {
    events := [5, 7];
    handlers := [Conduct([5], true, false), Conduct([7], true, false)];
    ran := [0, 1];
    assert !RemovedBefore(events, handlers, ran, 0) && !RemovedBefore(events, handlers, ran, 1);
  }

  class Loop {
    var taskq: seq<TaskId>              // taskq_
    var actived: seq<Option<EventId>>   // actived_events_
    var eventsProcessing: nat           // events_processing_
    var registered: set<EventId>        // the events the reactor knows
    var stop: bool

    constructor ()
      ensures taskq == [] && actived == [] && eventsProcessing == 0 && registered == {} && !stop
    {
      taskq, actived, eventsProcessing, registered, stop := [], [], 0, {}, false;
    }

    /** The locked push of `run_in_loop`. */
    method PushTask(t: TaskId)
      modifies this`taskq
      ensures taskq == old(taskq) + [t]
    {
      taskq := taskq + [t];
    }

    method PushAll(ts: seq<TaskId>)
      modifies this`taskq
      ensures taskq == old(taskq) + ts
    {
      for i := 0 to |ts|
        invariant taskq == old(taskq) + ts[..i]
      {
        PushTask(ts[i]);
        assert ts[..i + 1] == ts[..i] + [ts[i]];
      }
      assert ts[..|ts|] == ts;
    }

    /** `process_tasks`: swaps the queue out and runs it in order until `stop_` is
        seen; what is pushed meanwhile waits, in order, for the next pass. */
    method ProcessTasks(effects: seq<Effect>) returns (ran: seq<TaskId>, ghost cuts: seq<nat>)
      requires |effects| == |taskq| && !stop
      modifies this`taskq, this`stop
      ensures ran <= old(taskq)
      ensures taskq == Pushes(effects, |ran|)
      ensures |ran| <= |effects| && Cut(taskq, effects, cuts, |ran|)
      ensures forall i :: 0 <= i < |ran| - 1 ==> !effects[i].stops
      ensures |ran| < |effects| ==> ran != [] && effects[|ran| - 1].stops
      ensures stop <==> ran != [] && effects[|ran| - 1].stops
    {
      var swapped := [];
      if |taskq| > 0 {
        taskq, swapped := swapped, taskq;
      }
      ran, cuts := [], [0];
      while |ran| < |swapped|
        invariant |swapped| == |effects| && ran <= swapped && !stop
        invariant taskq == Pushes(effects, |ran|) && Cut(taskq, effects, cuts, |ran|)
        invariant forall i :: 0 <= i < |ran| ==> !effects[i].stops
        decreases |swapped| - |ran|
      {
        var effect := effects[|ran|];
        CutStep(taskq, effects, cuts, |ran|);
        cuts := cuts + [|taskq + effect.pushes|];
        ran := ran + [swapped[|ran|]];
        PushAll(effect.pushes);
        stop := effect.stops;
        if stop {
          break;
        }
      }
    }

    /** `remove_event`: during a batch every copy of the event from index
        `events_processing_` on is nulled; the reactor forgets the event, which it
        asserts to know. */
    method RemoveEvent(e: EventId) returns (known: bool)
      modifies this`actived, this`registered
      ensures |actived| == |old(actived)|
      ensures forall i :: 0 <= i < |actived| ==>
                actived[i] == if 0 < eventsProcessing <= i && old(actived)[i] == Some(e) then None else old(actived)[i]
      ensures registered == old(registered) - {e} && (known <==> e in old(registered))
    {
      if eventsProcessing != 0 {
        var size := |actived|;
        var i := eventsProcessing;
        while i < size
          invariant i >= eventsProcessing && |actived| == size && registered == old(registered)
          invariant forall j :: 0 <= j < size ==>
                      actived[j] == if eventsProcessing <= j < i && old(actived)[j] == Some(e) then None
                                    else old(actived)[j]
        {
          if actived[i] == Some(e) {
            actived := actived[i := None];
          }
          i := i + 1;
        }
      }
      known := e in registered;
      registered := registered - {e};
    }

    /** A handler that removes events from the loop. */
    method RemoveAll(es: seq<EventId>)
      modifies this`actived, this`registered
      ensures |actived| == |old(actived)|
      ensures forall i :: 0 <= i < |actived| ==>
                actived[i] == if 0 < eventsProcessing <= i && old(actived)[i].Some? && old(actived)[i].value in es
                              then None else old(actived)[i]
      ensures registered == old(registered) - set e | e in es
    {
      for k := 0 to |es|
        invariant |actived| == |old(actived)|
        invariant forall i :: 0 <= i < |actived| ==>
                    actived[i] == if 0 < eventsProcessing <= i && old(actived)[i].Some?
                                     && old(actived)[i].value in es[..k]
                                  then None else old(actived)[i]
        invariant registered == old(registered) - set e | e in es[..k]
      {
        var known := RemoveEvent(es[k]);
        assert es[..k + 1] == es[..k] + [es[k]];
      }
      assert es[..|es|] == es;
    }

    /** The events that are still to be offered: those no handler has removed. */
    ghost predicate Offered(events: seq<EventId>, handlers: seq<Conduct>, ran: seq<nat>, from: nat)
      requires |events| == |handlers|
      reads this`actived
    {
      && |actived| == |events|
      && (forall j :: from <= j < |events| ==>
            actived[j] == if RemovedBefore(events, handlers, ran, j) then None else Some(events[j]))
    }

    /** The handler of slot `i` and what follows it when it throws: the slot is read
        again for the event to remove. */
    method Handle(i: nat, handler: Conduct) returns (crashed: bool)
      requires i < |actived| && actived[i].Some? && eventsProcessing == 1
      modifies this`actived, this`registered
      ensures crashed <==> i >= 1 && handler.throws && old(actived)[i].value in handler.removes
      ensures |actived| == |old(actived)|
      ensures forall j :: i < j < |actived| ==>
                actived[j] == if old(actived)[j].Some? && old(actived)[j].value in Gone(old(actived)[i].value, handler)
                              then None else old(actived)[j]
      ensures registered == old(registered) - set e | e in Gone(old(actived)[i].value, handler)
    {
      RemoveAll(handler.removes);
      crashed := false;
      if handler.throws {
        if actived[i].None? {
          return true;
        }
        var known := RemoveEvent(actived[i].value);
      }
    }

    /** One round of the loop of `process_events`. */
    method Offer(events: seq<EventId>, handlers: seq<Conduct>, i: nat, ran: seq<nat>)
      returns (ran': seq<nat>, crashed: bool)
      requires i < |events| == |handlers| && eventsProcessing == 1
      requires Offered(events, handlers, ran, i) && Filtered(events, handlers, i, ran)
      modifies this`actived, this`registered
      ensures Offered(events, handlers, ran', i + 1) && Filtered(events, handlers, i + 1, ran')
      ensures ran' == ran || ran' == ran + [i]
      ensures crashed <==> ran' == ran + [i] && CrashesAt(events, handlers, i)
      ensures registered == old(registered) -
                            if ran' == ran then {} else set e | e in Gone(events[i], handlers[i])
    {
      ran', crashed := ran, false;
      FilteredStep(events, handlers, i, ran);
      RemovedStep(events, handlers, i, ran);
      if actived[i].Some? {
        ran' := ran + [i];
        crashed := Handle(i, handlers[i]);
      }
    }

    /** What `process_events` has done before position `seen`. */
    ghost predicate Dispatched(events: seq<EventId>, handlers: seq<Conduct>, ran: seq<nat>, seen: nat,
                               before: set<EventId>)
      reads this`actived, this`registered
    {
      && seen <= |events| == |handlers|
      && Offered(events, handlers, ran, seen) && Filtered(events, handlers, seen, ran)
      && registered == before - AllGone(events, handlers, ran)
    }

    method DispatchNext(events: seq<EventId>, handlers: seq<Conduct>, seen: nat, ran: seq<nat>,
                        ghost before: set<EventId>)
      returns (ran': seq<nat>, crashed: bool)
      requires eventsProcessing == 1 && seen < |events| && Dispatched(events, handlers, ran, seen, before)
      modifies this`actived, this`registered
      ensures Dispatched(events, handlers, ran', seen + 1, before)
      ensures Crashes(events, handlers, ran') <==> crashed || Crashes(events, handlers, ran)
      ensures crashed ==> CrashesAt(events, handlers, seen)
    {
      ran', crashed := Offer(events, handlers, seen, ran);
      assert forall i :: i in ran + [seen] <==> i in ran || i == seen;
      assert AllGone(events, handlers, ran + [seen]) ==
             AllGone(events, handlers, ran) + set e | e in Gone(events[seen], handlers[seen]);
    }

    /** Whether the batch has been handed out as far as `seen`: no handler that has run has
        crashed, and none but the last can have set `stop_`. */
    ghost predicate Through(events: seq<EventId>, handlers: seq<Conduct>, ran: seq<nat>, seen: nat, crashed: bool,
                            before: set<EventId>)
      reads this`actived, this`registered, this`stop
    {
      && Dispatched(events, handlers, ran, seen, before)
      && (crashed <==> Crashes(events, handlers, ran))
      && (crashed ==> seen > 0 && CrashesAt(events, handlers, seen - 1))
      && (forall i :: 0 <= i < seen - 1 ==> !handlers[i].stops)
      && (!crashed ==> (stop <==> seen > 0 && handlers[seen - 1].stops))
    }

    /** One round of the loop, with the test of `stop_` at its end. */
    method DispatchOne(events: seq<EventId>, handlers: seq<Conduct>, seen: nat, ran: seq<nat>,
                       ghost before: set<EventId>)
      returns (ran': seq<nat>, crashed: bool)
      requires eventsProcessing == 1 && !stop && seen < |events|
      requires Through(events, handlers, ran, seen, false, before)
      modifies this`actived, this`registered, this`stop
      ensures Through(events, handlers, ran', seen + 1, crashed, before)
    {
      ran', crashed := DispatchNext(events, handlers, seen, ran, before);
      if !crashed {
        stop := handlers[seen].stops;
      }
    }

    lemma StartsThrough(events: seq<EventId>, handlers: seq<Conduct>)
      requires |events| == |handlers| && !stop
      requires |actived| == |events| && forall i :: 0 <= i < |events| ==> actived[i] == Some(events[i])
      ensures Through(events, handlers, [], 0, false, registered)
    {
      assert AllGone(events, handlers, []) == {};
    }

    /** The loop of `process_events`. */
    method DispatchAll(events: seq<EventId>, handlers: seq<Conduct>)
      returns (ran: seq<nat>, seen: nat, crashed: bool)
      requires |events| == |handlers| && eventsProcessing == 1 && !stop
      requires |actived| == |events| && forall i :: 0 <= i < |events| ==> actived[i] == Some(events[i])
      modifies this`actived, this`registered, this`stop
      ensures Through(events, handlers, ran, seen, crashed, old(registered))
      ensures !crashed && !stop ==> seen == |events|
    {
      ran, seen, crashed := [], 0, false;
      StartsThrough(events, handlers);
      while seen < |events| && !crashed && !stop
        invariant eventsProcessing == 1 && Through(events, handlers, ran, seen, crashed, old(registered))
        decreases |events| - seen
      {
        ran, crashed := DispatchOne(events, handlers, seen, ran, old(registered));
        seen := seen + 1;
      }
    }

    /** Dispatches the captured batch.  The handlers that run are those of the
        events, in order, that no earlier handler removed, up to the point where
        `stop_` is seen or a null event is dereferenced, which happens exactly when
        a handler other than the first removes its own event and then throws. */
    method ProcessEvents(events: seq<EventId>, handlers: seq<Conduct>)
      returns (ran: seq<nat>, seen: nat, crashed: bool)
      requires |events| == |handlers| && eventsProcessing == 0 && !stop
      requires |actived| == |events| && forall i :: 0 <= i < |events| ==> actived[i] == Some(events[i])
      modifies this
      ensures seen <= |events| && Filtered(events, handlers, seen, ran)
      ensures registered == old(registered) - AllGone(events, handlers, ran)
      ensures forall e :: e in old(registered) ==> (e !in registered <==> GoneBy(events, handlers, ran, e))
      ensures forall i :: 0 <= i < seen - 1 ==> !handlers[i].stops
      ensures crashed <==> Crashes(events, handlers, ran)
      ensures crashed ==> seen > 0 && CrashesAt(events, handlers, seen - 1)
      ensures !crashed ==> (stop <==> seen > 0 && handlers[seen - 1].stops)
      ensures !crashed && !stop ==> seen == |events|
      ensures !crashed ==> actived == [] && eventsProcessing == 0
      ensures taskq == old(taskq)
    {
      eventsProcessing := 1;
      ran, seen, crashed := DispatchAll(events, handlers);
      GoneExactly(events, handlers, ran);
      if !crashed {
        actived := [];
        eventsProcessing := 0;
      }
    }
  }
}
