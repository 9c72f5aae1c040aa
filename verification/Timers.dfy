/** timer_queue.cpp and timeout.h with monotonic timers, in runs without
    cancellation.  The priority queue is known by its specification: `Top` is an
    element with the least deadline. */
module Timers {
  import opened Wrappers

  /** How often a timer due first at `first`, and every `period` after that if that
      is not 0, has come due by the time `now`. */
  function TimesDue(first: int, period: nat, now: int): nat {
    if now < first then 0
    else if period == 0 then 1
    else (now - first) / period + 1
  }

  /** A deadline reached after `fires` firings has not come up too early or late. */
  lemma DueExactly(first: int, period: nat, now: int, fires: nat)
    requires period > 0
    ensures fires < TimesDue(first, period, now) <==> first + fires * period <= now
  {
    if now >= first {
      var q := (now - first) / period;
      assert now - first == q * period + (now - first) % period;
      if fires <= q {
        MulMono(fires, q, period);
      } else {
        MulMono(q + 1, fires, period);
      }
    } else {
      MulMono(0, fires, period);
    }
  }

  /** Time going on never takes back that a timer came due. */
  lemma DueMonotone(first: int, period: nat, now: int, later: int)
    requires now <= later
    ensures TimesDue(first, period, now) <= TimesDue(first, period, later)
  {
    var n := TimesDue(first, period, now);
    if period > 0 && n > 0 {
      DueExactly(first, period, now, n - 1);
      DueExactly(first, period, later, n - 1);
    }
  }

  lemma MulMono(a: int, b: int, c: nat)
    requires a <= b
    ensures a * c <= b * c
  {
  }

  class Timer {
    var next: int        // timeout_.next_
    var interval: int    // timeout_.interval_
    var closed: bool
    ghost const first: int
    ghost const period: nat
    ghost var fires: nat

    constructor (initval: int, interval: nat)
      ensures next == first == initval && this.interval == period == interval
      ensures !closed && fires == 0
    {
      next, this.interval, closed := initval, interval, false;
      first, period, fires := initval, interval, 0;
    }

    /** `timeout::update` */
    method Update()
      modifies this`next
      ensures next == old(next) + interval
    {
      next := next + interval;
    }

    /** `timeout::persist` */
    predicate Persist()
      reads this`interval
    {
      interval != 0
    }

    /** `timeout::remaining` */
    function Remaining(now: int): (d: int)
      reads this`next
      ensures d >= 0 && now + d >= next && (d == 0 || now + d == next)
    {
      var diff := next - now;
      if diff > 0 then diff else 0
    }

    /** `close`, which also clears the timeout. */
    method Close()
      modifies this`next, this`interval, this`closed
      ensures next == interval == 0 && closed
    {
      next, interval := 0, 0;
      closed := true;
    }

    /** The deadline is always the first one plus a whole number of intervals; a
        one-shot timer fires once and is closed by that. */
    ghost predicate Sound()
      reads this
    {
      if closed then period == 0 && fires == 1
      else interval == period && next == first + fires * period && (period == 0 ==> fires == 0)
    }

    ghost function Due(now: int): nat {
      TimesDue(first, period, now)
    }

    ghost predicate Ready(now: int)
      reads this
    {
      !closed && next <= now
    }

    /** A timer is ready exactly when it has not fired as often as it came due. */
    lemma ReadyExactly(now: int)
      requires Sound() && fires <= Due(now)
      ensures Ready(now) <==> fires < Due(now)
    {
      if period > 0 {
        DueExactly(first, period, now, fires);
      }
    }

    /** What `process_ready_timers` does with one timer, between the handler and
        the push; true when it goes back into the queue. */
    method Fire() returns (again: bool)
      requires Sound() && !closed
      modifies this
      ensures Sound() && fires == old(fires) + 1
      ensures again <==> !closed
      ensures again ==> next == old(next) + interval
    {
      fires := fires + 1;
      if Persist() {
        Update();
        assert first + fires * period == first + (fires - 1) * period + period;
      } else {
        Close();
      }
      again := !closed;
    }
  }

  class TimerQueue {
    var heap: set<Timer>
    ghost var timers: set<Timer>   // every timer inserted so far
    ghost var fired: seq<Timer>    // whose handlers have run, in order

    /** The history holds every timer as often as it has fired. */
    ghost predicate Recorded()
      reads this, timers
    {
      && (forall t :: t in fired ==> t in timers)
      && (forall t :: t in timers ==> multiset(fired)[t] == t.fires)
    }

    /** Between passes the queue holds exactly the timers that are not closed. */
    ghost predicate Valid()
      reads this, timers
    {
      Recorded() &&
      forall t :: t in timers + heap ==> t in timers && t.Sound() && (t in heap <==> !t.closed)
    }

    constructor ()
      ensures Valid() && timers == {} && fired == []
    {
      heap, timers, fired := {}, {}, [];
    }

    method Insert(initval: int, interval: nat) returns (t: Timer)
      requires Valid()
      modifies this`heap, this`timers
      ensures Valid() && fresh(t) && timers == old(timers) + {t} && heap == old(heap) + {t}
      ensures t.first == initval && t.period == interval && t.fires == 0
    {
      t := new Timer(initval, interval);
      heap := heap + {t};
      timers := timers + {t};
    }

    lemma HasLeast(s: set<Timer>) returns (t: Timer)
      requires s != {}
      ensures t in s && forall u :: u in s ==> t.next <= u.next
    {
      t :| t in s;
      if s != {t} {
        var u := HasLeast(s - {t});
        assert s == (s - {t}) + {t};
        t := if u.next < t.next then u else t;
      }
    }

    /** `std::priority_queue::top` under `timer_less`. */
    method Top() returns (t: Timer)
      requires heap != {}
      ensures t in heap && forall u :: u in heap ==> t.next <= u.next
    {
      ghost var least := HasLeast(heap);
      t :| t in heap && forall u :: u in heap ==> t.next <= u.next;
    }

    /** `min_delay`, where None is the greatest timestamp: nothing to wait for when a timer
        is due, and otherwise until the first deadline and no longer. */
    method MinDelay(now: int) returns (delay: Option<int>)
      ensures delay.None? <==> heap == {}
      ensures (exists t :: t in heap && t.next <= now) ==> delay == Some(0)
      ensures delay.Some? && (forall t :: t in heap ==> t.next > now) ==>
                && (exists t :: t in heap && t.next == now + delay.value)
                && (forall t :: t in heap ==> t.next >= now + delay.value)
    {
      if heap == {} {
        return None;
      }
      var top := Top();
      delay := Some(top.Remaining(now));
    }

    /** The loop of `get_ready_timers`: `list` has left the queue, which was `all`. */
    ghost predicate Extracting(all: set<Timer>, list: seq<Timer>, now: int)
      reads this`heap, all
    {
      && heap <= all
      && (forall t :: t in all ==> (t in list <==> t !in heap))
      && (forall t :: t in list ==> t in all && t.next <= now)
      && (forall t, u :: t in list && u in heap ==> t.next <= u.next)
      && (forall i, j :: 0 <= i < j < |list| ==> list[i].next <= list[j].next && list[i] != list[j])
    }

    /** One round of the loop; false when nothing more is due. */
    method PopReady(ghost all: set<Timer>, list: seq<Timer>, now: int) returns (list': seq<Timer>, more: bool)
      requires heap != {} && Extracting(all, list, now) && forall t :: t in heap ==> !t.closed
      modifies this`heap
      ensures Extracting(all, list', now)
      ensures if more then |heap| < |old(heap)| else forall t :: t in heap ==> t.next > now
    {
      var top := Top();
      if top.next > now {
        return list, false;
      }
      assert forall i :: 0 <= i < |list| ==> list[i] in list;
      list' := if !top.closed then list + [top] else list;
      heap := heap - {top};
      more := true;
    }

    /** `get_ready_timers`: takes out exactly the timers due, earliest first. */
    method GetReadyTimers(now: int) returns (list: seq<Timer>)
      requires Valid()
      modifies this`heap
      ensures forall t :: t in list <==> t in old(heap) && t.next <= now
      ensures heap == set t | t in old(heap) && t.next > now
      ensures forall i, j :: 0 <= i < j < |list| ==> list[i].next <= list[j].next && list[i] != list[j]
    {
      list := [];
      while heap != {}
        invariant Extracting(old(heap), list, now)
        decreases |heap|
      {
        var more;
        list, more := PopReady(old(heap), list, now);
        if !more {
          break;
        }
      }
    }

    /** During a pass the timers taken out, `rest`, are out of the queue. */
    ghost predicate Passing(rest: seq<Timer>)
      reads this, timers
    {
      && Recorded()
      && (forall i, j :: 0 <= i < j < |rest| ==> rest[i] != rest[j])
      && (forall t :: t in rest ==> t in timers && t !in heap && !t.closed)
      && (forall t :: t in timers + heap ==> t in timers && t.Sound() && (t in heap || t in rest <==> !t.closed))
    }

    /** `process_ready_timers`: every timer of the list fires once, in order, and
        goes back into the queue or is closed. */
    method ProcessReadyTimers(list: seq<Timer>)
      requires Passing(list)
      modifies this`heap, this`fired, set t | t in list
      ensures Valid() && fired == old(fired) + list
      ensures forall t :: t in list ==> t.fires == old(t.fires) + 1
    {
      assert list[0..] == list;
      for i := 0 to |list|
        invariant Passing(list[i..]) && fired == old(fired) + list[..i]
      {
        NextOf(list, i);
        FireNext(list[i], list[i..]);
      }
      assert list[..|list|] == list;
      FiredOnce(list);
    }

    twostate lemma FiredOnce(list: seq<Timer>)
      requires old(Recorded()) && Recorded() && timers == old(timers) && fired == old(fired) + list
      requires forall i, j :: 0 <= i < j < |list| ==> list[i] != list[j]
      requires forall t :: t in list ==> t in timers
      ensures forall t :: t in list ==> t.fires == old(t.fires) + 1
    {
      forall t | t in list
        ensures t.fires == old(t.fires) + 1
      {
        OnceIn(list, t);
      }
    }

    static lemma NextOf(list: seq<Timer>, i: nat)
      requires i < |list|
      ensures list[i..] != [] && list[i..][0] == list[i] && list[i] in list
      ensures list[i..][1..] == list[i + 1..] && list[..i + 1] == list[..i] + [list[i]]
    {
    }

    static lemma {:induction false} OnceIn(list: seq<Timer>, t: Timer)
      requires t in list && forall i, j :: 0 <= i < j < |list| ==> list[i] != list[j]
      ensures multiset(list)[t] == 1
    {
      assert list == [list[0]] + list[1..];
      if t == list[0] {
        assert t !in list[1..];
      } else {
        OnceIn(list[1..], t);
      }
    }

    method FireNext(iter: Timer, ghost rest: seq<Timer>)
      requires rest != [] && iter == rest[0] && Passing(rest)
      modifies this`heap, this`fired, iter
      ensures Passing(rest[1..]) && iter.fires == old(iter.fires) + 1 && fired == old(fired) + [iter]
    {
      assert forall t :: t in rest <==> t == iter || t in rest[1..] by {
        assert rest == [iter] + rest[1..];
      }
      assert iter !in rest[1..];
      if !iter.closed {
        fired := fired + [iter];
        var again := iter.Fire();
        if again {
          heap := heap + {iter};
        }
      }
    }

    /** One iteration's timers: take out what is due and run it. */
    method Pass(now: int) returns (list: seq<Timer>)
      requires Valid()
      modifies this`heap, this`fired, timers
      ensures Valid() && fired == old(fired) + list
      ensures forall t :: t in list <==> t in timers && old(t.Ready(now))
      ensures forall i, j :: 0 <= i < j < |list| ==>
                && list[i] in old(timers) && list[j] in old(timers) && list[i] != list[j]
                && old(list[i].next) <= old(list[j].next)
      ensures forall t :: t in timers ==> t.fires == old(t.fires) + if t in list then 1 else 0
      ensures list == [] ==> forall t :: t in timers ==> !t.Ready(now)
    {
      list := GetReadyTimers(now);
      ProcessReadyTimers(list);
    }

    /** No timer has fired more often than it came due. */
    ghost predicate NotEarly(now: int)
      reads this, timers
    {
      forall t :: t in timers ==> t.fires <= t.Due(now)
    }

    lemma AllReadyExactly(now: int)
      requires Valid() && NotEarly(now)
      ensures forall t :: t in timers ==> (t.Ready(now) <==> t.fires < t.Due(now))
    {
      forall t | t in timers
        ensures t.Ready(now) <==> t.fires < t.Due(now)
      {
        t.ReadyExactly(now);
      }
    }

    lemma Backlog(s: set<Timer>, now: int) returns (b: nat)
      ensures forall t :: t in s ==> t.Due(now) - t.fires <= b
    {
      b := 0;
      if s != {} {
        var t :| t in s;
        b := Backlog(s - {t}, now);
        b := b + t.Due(now);
      }
    }

    /** Passes repeated at one time until nothing is ready come to an end, and then
        every periodic timer has fired floor((now - first) / period) + 1 times,
        every one-shot timer that was due once, and no other timer at all; the history
        has grown by exactly these firings. */
    method RunUntilQuiet(now: int)
      requires Valid() && NotEarly(now)
      modifies this`heap, this`fired, timers
      ensures Valid() && old(fired) <= fired
      ensures forall t :: t in timers ==> t.fires == t.Due(now) && !t.Ready(now)
      ensures forall t :: t in timers ==> multiset(fired)[t] == multiset(old(fired))[t] + t.fires - old(t.fires)
      ensures forall t :: t in timers && !t.closed ==> t.next == t.first + t.fires * t.period
    {
      ghost var bound := Backlog(timers, now);
      while true
        invariant Valid() && NotEarly(now) && old(fired) <= fired
        invariant forall t :: t in timers ==> t.Due(now) - t.fires <= bound
        decreases bound
      {
        AllReadyExactly(now);
        var list := Pass(now);
        if list == [] {
          break;
        }
        assert list[0] in list;
        bound := bound - 1;
      }
      AllReadyExactly(now);
    }

    lemma StaysNotEarly(now: int, later: int)
      requires NotEarly(now) && now <= later
      ensures NotEarly(later)
    {
      forall t | t in timers
        ensures t.fires <= t.Due(later)
      {
        DueMonotone(t.first, t.period, now, later);
      }
    }

    /** The queue has come to know the timers `added`, those of the settings. */
    ghost predicate Grown(before: set<Timer>, added: seq<Timer>, settings: seq<Doing>)
      reads this
    {
      && timers == before + (set t | t in added)
      && (forall i, j :: 0 <= i < j < |added| ==> added[i] != added[j])
      && AreSet(added, settings)
    }

    method SetOne(initval: int, interval: nat, ghost before: set<Timer>, added: seq<Timer>,
                  ghost settings: seq<Doing>)
      returns (added': seq<Timer>)
      requires Valid() && Grown(before, added, settings)
      modifies this`heap, this`timers
      ensures Valid() && Grown(before, added', settings + [Set(initval, interval)])
      ensures |added'| == |added| + 1 && added' == added + [added'[|added|]] && fresh(added'[|added|])
      ensures forall t :: t in timers && t !in old(timers) ==> t == added'[|added|] && t.fires == 0
    {
      var t := Insert(initval, interval);
      added' := added + [t];
    }

    /** The same over time, with timers set between the readings of the clock, also
        timers whose deadline has passed: whatever came when, the counts of all timers,
        the script's among them, are right for the last reading. */
    method RunOverTime(script: seq<Doing>, clock: int, last: int) returns (added: seq<Timer>)
      requires Valid() && NotEarly(clock) && Rising(clock, script, last)
      modifies this`heap, this`fired, this`timers, timers
      ensures Valid() && old(fired) <= fired
      ensures Grown(old(timers), added, Settings(script)) && forall t :: t in added ==> fresh(t)
      ensures forall t :: t in timers ==> t.fires == t.Due(last)
    {
      ghost var now := clock;
      added := [];
      for i := 0 to |script|
        invariant Valid() && NotEarly(now) && Rising(now, script[i..], last) && old(fired) <= fired
        invariant Grown(old(timers), added, Settings(script[..i]))
        invariant forall t :: t in added ==> fresh(t)
      {
        assert script[i..][1..] == script[i + 1..];
        SettingsStep(script, i);
        match script[i]
        case Set(initval, interval) =>
          added := SetOne(initval, interval, old(timers), added, Settings(script[..i]));
        case Read(time) =>
          StaysNotEarly(now, time);
          RunUntilQuiet(time);
          now := time;
      }
      assert script[..|script|] == script;
      StaysNotEarly(now, last);
      RunUntilQuiet(last);
    }
  }

  /** What goes on between one reading of the clock and the next. */
  datatype Doing = Set(initval: int, interval: nat) | Read(time: int)

  predicate Rising(clock: int, script: seq<Doing>, last: int)
    decreases |script|
  {
    if script == [] then clock <= last
    else
      match script[0]
      case Set(_, _) => Rising(clock, script[1..], last)
      case Read(time) => clock <= time && Rising(time, script[1..], last)
  }

  /** The timers that the script sets. */
  function Settings(script: seq<Doing>): seq<Doing> {
    if script == [] then []
    else
      var last := script[|script| - 1];
      Settings(script[..|script| - 1]) + if last.Set? then [last] else []
  }

  lemma SettingsStep(script: seq<Doing>, i: nat)
    requires i < |script|
    ensures Settings(script[..i + 1]) == Settings(script[..i]) + if script[i].Set? then [script[i]] else []
  {
    assert script[..i + 1][..i] == script[..i];
  }

  /** The timers are those of the settings, in their order. */
  ghost predicate AreSet(added: seq<Timer>, settings: seq<Doing>) {
    && |added| == |settings|
    && forall k :: 0 <= k < |added| ==> settings[k] == Set(added[k].first, added[k].period)
  }
}
