/** logger.cpp with the asynchronous configuration: any number of threads post
    records, one thread writes them, and `deinit` stops that thread.

    The record under the writer's pointer stays in the queue while it is written,
    outside the lock; producers push at the other end meanwhile. */
module Logger {
  import opened Wrappers

  /** Where `log_thread` is.  It holds the mutex in `Checking`, `Dozing` (it saw
      nothing to do and is about to wait) and `Deciding` (past the wait loop). */
  datatype Writer = Locking | Checking | Dozing | Asleep | Woken | Deciding | Writing | Exited

  /** Where `deinit` is. */
  datatype Closer = Running | StopSet | Fenced | Signalled | Joined

  /** `queue[0]` is the front of `log_dataq_`; `data` is what the writer's pointer
      refers to.  `toSignal` counts producers between their push and their signal;
      `posted`, `written` and `atStop` record history. */
  datatype State<R> = State(
    queue: seq<R>, stop: bool, writer: Writer, data: Option<R>, closer: Closer, toSignal: nat,
    posted: seq<R>, written: seq<R>, atStop: nat)

  datatype Step<R> =
    | Post(r: R)       // post_log, the locked push
    | PostSignal       // post_log, the signal after it
    | Lock             // take the mutex, pop the record just written
    | Check            // the condition of the wait loop
    | Sleep            // the atomic release-and-wait
    | Wake             // time out, or wake up for no reason
    | Relock           // take the mutex again after waking
    | Decide           // leave, or take the next record
    | Write
    | SetStop          // deinit: stop_ is set before the mutex is taken
    | Fence            // deinit: take and release the mutex
    | StopSignal       // deinit: the signal
    | Join

  function Start<R>(): State<R> {
    State([], false, Locking, None, Running, 0, [], [], 0)
  }

  predicate MutexFree<R>(s: State<R>) {
    s.writer !in {Checking, Dozing, Deciding}
  }

  function Roused(w: Writer): Writer {
    if w == Asleep then Woken else w
  }

  predicate Enabled<R>(s: State<R>, a: Step<R>) {
    match a
    case Post(_) => MutexFree(s)
    case PostSignal => s.toSignal > 0
    case Lock => s.writer == Locking && (s.data.Some? ==> s.queue != [])
    case Check => s.writer == Checking
    case Sleep => s.writer == Dozing
    case Wake => s.writer == Asleep
    case Relock => s.writer == Woken
    case Decide => s.writer == Deciding && (s.stop || s.queue != [])
    case Write => s.writer == Writing && s.data.Some?
    case SetStop => s.closer == Running
    case Fence => s.closer == StopSet && MutexFree(s)
    case StopSignal => s.closer == Fenced
    case Join => s.closer == Signalled && s.writer == Exited
  }

  function After<R>(s: State<R>, a: Step<R>): State<R>
    requires Enabled(s, a)
  {
    match a
    case Post(r) => s.(queue := [r] + s.queue, posted := s.posted + [r], toSignal := s.toSignal + 1)
    case PostSignal => s.(toSignal := s.toSignal - 1, writer := Roused(s.writer))
    case Lock =>
      if s.data.Some? then s.(queue := s.queue[..|s.queue| - 1], data := None, writer := Checking)
      else s.(writer := Checking)
    case Check => s.(writer := if !s.stop && s.queue == [] then Dozing else Deciding)
    case Sleep => s.(writer := Asleep)
    case Wake => s.(writer := Woken)
    case Relock => s.(writer := Checking)
    case Decide =>
      if s.stop && s.queue == [] then s.(writer := Exited)
      else s.(data := Some(s.queue[|s.queue| - 1]), writer := Writing)
    case Write => s.(written := s.written + [s.data.value], writer := Locking)
    case SetStop => s.(stop := true, closer := StopSet, atStop := |s.posted|)
    case Fence => s.(closer := Fenced)
    case StopSignal => s.(closer := Signalled, writer := Roused(s.writer))
    case Join => s.(closer := Joined)
  }

  ghost predicate Reaches<R>(s: State<R>, run: seq<Step<R>>, t: State<R>)
    decreases |run|
  {
    if run == [] then s == t
    else Enabled(s, run[0]) && Reaches(After(s, run[0]), run[1..], t)
  }

  // ---------- the invariant ----------

  function Reverse<R>(q: seq<R>): (r: seq<R>)
    ensures |r| == |q|
  {
    if q == [] then [] else Reverse(q[1..]) + [q[0]]
  }

  lemma {:induction false} ReverseLast<R>(q: seq<R>)
    requires q != []
    ensures Reverse(q) == [q[|q| - 1]] + Reverse(q[..|q| - 1])
  {
    if |q| > 1 {
      ReverseLast(q[1..]);
      assert q[1..][..|q| - 2] == q[..|q| - 1][1..];
    }
  }

  /** The writer has written the record at the back and not yet popped it. */
  predicate Unpopped<R>(s: State<R>) {
    s.writer == Locking && s.data.Some?
  }

  /** The records that are still to be written. */
  function Waiting<R>(s: State<R>): seq<R>
    requires Unpopped(s) ==> s.queue != []
  {
    if Unpopped(s) then s.queue[..|s.queue| - 1] else s.queue
  }

  ghost predicate Records<R>(s: State<R>) {
    && (s.data.Some? ==> s.writer in {Writing, Locking} && s.queue != [] && s.queue[|s.queue| - 1] == s.data.value)
    && (s.writer == Writing ==> s.data.Some?)
    && (Unpopped(s) ==> s.written != [] && s.written[|s.written| - 1] == s.data.value)
    && s.posted == s.written + Reverse(Waiting(s))
    && (s.writer == Exited ==> |s.written| >= s.atStop)
    && (s.stop ==> |s.posted| >= s.atStop)
  }

  ghost predicate Wakeups<R>(s: State<R>) {
    && (s.stop <==> s.closer != Running)
    && (s.closer in {Fenced, Signalled, Joined} ==> s.writer != Dozing)
    && (s.closer in {Signalled, Joined} ==> s.writer != Asleep)
    && (s.writer == Deciding ==> s.stop || s.queue != [])
    && (s.writer == Dozing ==> s.queue == [])
    && (s.writer == Asleep && s.queue != [] ==> s.toSignal > 0)
    && (s.writer == Exited ==> s.stop)
    && (s.closer == Joined ==> s.writer == Exited)
  }

  ghost predicate Inv<R>(s: State<R>) {
    Records(s) && Wakeups(s)
  }

  lemma PostKeeps<R>(s: State<R>, r: R)
    requires Inv(s) && Enabled(s, Post(r))
    ensures Inv(After(s, Post(r)))
  {
    var t := After(s, Post(r));
    assert Waiting(t) == [r] + Waiting(s);
    assert t.posted == s.written + (Reverse(Waiting(s)) + [r]);
  }

  lemma Reassociate<R>(a: seq<R>, x: R, b: seq<R>)
    ensures a + ([x] + b) == a + [x] + b
  {
  }

  lemma WriteKeeps<R>(s: State<R>)
    requires Inv(s) && Enabled(s, Write)
    ensures Inv(After(s, Write))
  {
    var t := After(s, Write);
    ReverseLast(s.queue);
    Reassociate(s.written, s.data.value, Reverse(Waiting(t)));
  }

  lemma LockKeeps<R>(s: State<R>)
    requires Inv(s) && Enabled(s, Lock)
    ensures Inv(After(s, Lock))
  {
  }

  lemma StepKeeps<R>(s: State<R>, a: Step<R>)
    requires Inv(s) && Enabled(s, a)
    ensures Inv(After(s, a))
  {
    match a
    case Post(r) => PostKeeps(s, r);
    case Write => WriteKeeps(s);
    case Lock => LockKeeps(s);
    case _ =>
  }

  lemma {:induction false} RunKeeps<R>(s: State<R>, run: seq<Step<R>>, t: State<R>)
    requires Inv(s) && Reaches(s, run, t)
    ensures Inv(t)
    decreases |run|
  {
    if run != [] {
      StepKeeps(s, run[0]);
      RunKeeps(After(s, run[0]), run[1..], t);
    }
  }

  // ---------- what holds in every interleaving ----------

  /** Nothing is lost, duplicated or reordered: the records written, followed by
      those waiting from back to front, are the records posted. */
  lemma NothingLost<R>(run: seq<Step<R>>, s: State<R>)
    requires Reaches(Start(), run, s)
    ensures Unpopped(s) ==> s.queue != []
    ensures s.posted == s.written + Reverse(Waiting(s))
    ensures s.data.Some? ==> s.queue != [] && s.queue[|s.queue| - 1] == s.data.value
    ensures Unpopped(s) ==> s.written != [] && s.written[|s.written| - 1] == s.queue[|s.queue| - 1]
  {
    RunKeeps(Start(), run, s);
  }

  /** Whatever was posted before `stop_` was set has been written, in order, when
      the writer exits. */
  lemma WrittenBeforeExit<R>(run: seq<Step<R>>, s: State<R>)
    requires Reaches(Start(), run, s) && s.writer == Exited
    ensures s.stop && s.atStop <= |s.written| <= |s.posted|
    ensures s.written == s.posted[..|s.written|]
  {
    RunKeeps(Start(), run, s);
  }

  /** The timeout of the wait is never needed: a writer that sleeps with `stop_`
      set, or with work to do, has a signal still to come. */
  lemma NoSleepWithoutSignal<R>(run: seq<Step<R>>, s: State<R>)
    requires Reaches(Start(), run, s) && s.writer == Asleep
    ensures s.stop ==> s.closer in {StopSet, Fenced}
    ensures s.queue != [] ==> s.toSignal > 0
  {
    RunKeeps(Start(), run, s);
  }

  /** Awake, the writer can always go on: there is a record to pop, to take or to
      write whenever its code needs one. */
  lemma WriterNeverStuck<R>(run: seq<Step<R>>, s: State<R>) returns (a: Step<R>)
    requires Reaches(Start(), run, s) && s.writer != Asleep && s.writer != Exited
    ensures Enabled(s, a) && After(s, a).writer != s.writer
    ensures !Helped(a) && a != PostSignal && a != StopSignal
  {
    RunKeeps(Start(), run, s);
    a := WriterStep(s);
  }

  lemma WriterStep<R>(s: State<R>) returns (a: Step<R>)
    requires Inv(s) && s.writer != Asleep && s.writer != Exited
    ensures Enabled(s, a) && After(s, a).writer != s.writer
    ensures !Helped(a) && a != PostSignal && a != StopSignal
  {
    a := match s.writer
      case Locking => Lock
      case Checking => Check
      case Dozing => Sleep
      case Deciding => Decide
      case Writing => Write
      case _ => Relock;
  }

  // ---------- shutdown ----------

  function Rank(w: Writer, pending: bool): nat {
    match w
    case Locking => if pending then 1 else 6
    case Checking => 5
    case Dozing => 4
    case Asleep => 0
    case Woken => 6
    case Deciding => 3
    case Writing => 2
    case Exited => 0
  }

  function CloserRank(c: Closer): nat {
    match c case Running => 4 case StopSet => 3 case Fenced => 2 case Signalled => 1 case Joined => 0
  }

  function Measure<R>(s: State<R>): nat {
    10 * |s.queue| + 10 * s.toSignal + 10 * CloserRank(s.closer) + Rank(s.writer, s.data.Some?)
  }

  predicate Helped<R>(a: Step<R>) {
    a.Post? || a.Wake?
  }

  /** Every step but a timeout uses up the measure, a post adds 20 to it. */
  lemma StepShrinks<R>(s: State<R>, a: Step<R>)
    requires Inv(s) && Enabled(s, a) && !a.Wake?
    ensures Measure(After(s, a)) < Measure(s) + if a.Post? then 21 else 0
  {
  }

  function Posts<R>(run: seq<Step<R>>): nat {
    if run == [] then 0 else (if run[0].Post? then 1 else 0) + Posts(run[1..])
  }

  lemma {:induction false} RunShrinks<R>(s: State<R>, run: seq<Step<R>>, t: State<R>)
    requires Inv(s) && Reaches(s, run, t) && forall a :: a in run ==> !a.Wake?
    ensures Measure(t) + |run| <= Measure(s) + 21 * Posts(run)
    decreases |run|
  {
    if run != [] {
      StepKeeps(s, run[0]);
      StepShrinks(s, run[0]);
      RunShrinks(After(s, run[0]), run[1..], t);
    }
  }

  /** Once `stop_` is set some thread can always move, until `deinit` has joined. */
  lemma NextStep<R>(s: State<R>) returns (a: Step<R>)
    requires Inv(s) && s.stop && s.closer != Joined
    ensures Enabled(s, a) && !Helped(a)
  {
    if s.writer != Asleep && s.writer != Exited {
      a := WriterStep(s);
    } else if s.closer == StopSet {
      a := Fence;
    } else if s.closer == Fenced {
      a := StopSignal;
    } else {
      a := Join;
    }
  }

  /** Shutdown ends without any timeout: from a state with `stop_` set, a run in which
      no wait times out is bounded by what there is to do and by how many records are
      posted on the way; and where only further posts are possible, `deinit` has joined
      the writer and everything posted before `stop_` is written. */
  lemma ShutdownEnds<R>(before: seq<Step<R>>, s: State<R>, run: seq<Step<R>>, t: State<R>)
    requires Reaches(Start(), before, s) && s.stop && Reaches(s, run, t)
    requires forall a :: a in run ==> !a.Wake?
    ensures |run| <= Measure(s) + 21 * Posts(run)
    ensures (forall a :: Enabled(t, a) ==> Helped(a)) ==> t.closer == Joined && t.writer == Exited
    ensures s.atStop <= |s.posted| && (t.writer == Exited ==> s.posted[..s.atStop] <= t.written)
  {
    RunKeeps(Start(), before, s);
    RunKeeps(s, run, t);
    RunShrinks(s, run, t);
    HistoryGrows(s, run, t);
    if t.closer != Joined {
      var a := NextStep(t);
    }
  }

  lemma {:induction false} HistoryGrows<R>(s: State<R>, run: seq<Step<R>>, t: State<R>)
    requires Inv(s) && s.stop && Reaches(s, run, t)
    ensures t.stop && t.atStop == s.atStop && s.posted <= t.posted
    decreases |run|
  {
    if run != [] {
      StepKeeps(s, run[0]);
      HistoryGrows(After(s, run[0]), run[1..], t);
    }
  }

  // ---------- the class ----------

  lemma {:induction false} ReachesStep<R>(s: State<R>, run: seq<Step<R>>, t: State<R>, a: Step<R>)
    requires Reaches(s, run, t) && Enabled(t, a)
    ensures Reaches(s, run + [a], After(t, a))
    decreases |run|
  {
    if run == [] {
      assert ([] + [a])[1..] == [];
    } else {
      ReachesStep(After(s, run[0]), run[1..], t, a);
      assert (run + [a])[1..] == run[1..] + [a];
    }
  }

  /** The records still to be written, oldest first. */
  function Backlog<R>(s: State<R>): seq<R>
    requires Unpopped(s) ==> s.queue != []
  {
    Reverse(Waiting(s))
  }

  /** What a step does to the records still to be written: a post adds one at the end,
      a write takes the first, and nothing else changes them.  The writer goes to
      sleep only when there is none and no `stop_`, and leaves only when there is none
      and `stop_` is set; otherwise it points at the first. */
  ghost predicate Meant<R>(s: State<R>, a: Step<R>, t: State<R>)
    requires Inv(s) && Inv(t)
  {
    && Backlog(t) == (match a
                      case Post(r) => Backlog(s) + [r]
                      case Write => if Backlog(s) == [] then [] else Backlog(s)[1..]
                      case _ => Backlog(s))
    && t.written == s.written + (if a.Write? then Backlog(s)[..if Backlog(s) == [] then 0 else 1] else [])
    && (a.Write? ==> Backlog(s) != [])
    && (a.Check? ==> (t.writer == Dozing <==> !s.stop && Backlog(s) == []))
    && (a.Decide? ==> (t.writer == Exited <==> s.stop && Backlog(s) == []))
    && (t.writer == Writing ==> Backlog(t) != [] && t.data == Some(Backlog(t)[0]))
  }

  lemma StepMeans<R>(s: State<R>, a: Step<R>)
    requires Inv(s) && Enabled(s, a)
    ensures Inv(After(s, a)) && Meant(s, a, After(s, a))
  {
    StepKeeps(s, a);
    var t := After(s, a);
    if s.queue != [] {
      ReverseLast(s.queue);
    }
    match a
    case Post(r) => assert Waiting(t) == [r] + Waiting(s);
    case _ =>
  }

  /** The logger's shared state and its threads; each method is the code between
      two points where another thread can come in. */
  class AsyncLogger<R> {
    var logDataq: seq<R>     // log_dataq_, front first
    var stop: bool           // stop_
    var data: Option<R>      // the local pointer of log_thread
    var writer: Writer
    var closer: Closer
    var toSignal: nat        // the producers between their push and their signal
    var posted: seq<R>       // history
    var written: seq<R>
    var atStop: nat

    function View(): State<R>
      reads this
    {
      State(logDataq, stop, writer, data, closer, toSignal, posted, written, atStop)
    }

    constructor ()
      ensures View() == Start()
    {
      logDataq, stop, data, writer, closer := [], false, None, Locking, Running;
      toSignal, posted, written, atStop := 0, [], [], 0;
    }

    /** `post_log`, the locked push. */
    method PostLog(r: R)
      requires Enabled(View(), Post(r))
      modifies this
      ensures View() == After(old(View()), Post(r))
    {
      logDataq := [r] + logDataq;
      posted := posted + [r];
      toSignal := toSignal + 1;
    }

    /** `cond_->signal()`: only the writer ever waits. */
    method Signal()
      modifies this`writer
      ensures writer == Roused(old(writer))
    {
      if writer == Asleep {
        writer := Woken;
      }
    }

    /** `log_thread`, from the lock to the test of the wait loop. */
    method LockAndPop()
      requires Enabled(View(), Lock)
      modifies this
      ensures View() == After(old(View()), Lock)
    {
      if data.Some? {
        logDataq := logDataq[..|logDataq| - 1];
        data := None;
      }
      writer := Checking;
    }

    /** The test of the wait loop. */
    method TestWait()
      requires Enabled(View(), Check)
      modifies this
      ensures View() == After(old(View()), Check)
    {
      if !stop && |logDataq| == 0 {
        writer := Dozing;
      } else {
        writer := Deciding;
      }
    }

    /** Past the wait loop: leave, or point at the record at the back. */
    method LeaveOrTake()
      requires Enabled(View(), Decide)
      modifies this
      ensures View() == After(old(View()), Decide)
    {
      if stop && |logDataq| == 0 {
        writer := Exited;
        return;
      }
      data := Some(logDataq[|logDataq| - 1]);
      writer := Writing;
    }

    method WriteLog()
      requires Enabled(View(), Write)
      modifies this
      ensures View() == After(old(View()), Write)
    {
      written := written + [data.value];
      writer := Locking;
    }

    /** `deinit`, the store to `stop_`. */
    method RaiseStop()
      requires Enabled(View(), SetStop)
      modifies this
      ensures View() == After(old(View()), SetStop)
    {
      stop := true;
      closer := StopSet;
      atStop := |posted|;
    }

    method StepOf(a: Step<R>)
      requires Enabled(View(), a)
      modifies this
      ensures View() == After(old(View()), a)
    {
      match a
      case Post(r) => PostLog(r);
      case PostSignal =>
        toSignal := toSignal - 1;
        Signal();
      case Lock => LockAndPop();
      case Check => TestWait();
      case Sleep => writer := Asleep;
      case Wake => writer := Woken;
      case Relock => writer := Checking;
      case Decide => LeaveOrTake();
      case Write => WriteLog();
      case SetStop => RaiseStop();
      case Fence => closer := Fenced;
      case StopSignal =>
        closer := Signalled;
        Signal();
      case Join => closer := Joined;
    }

    /** A thread takes its next step, whatever it is. */
    method Take(a: Step<R>)
      requires Inv(View()) && Enabled(View(), a)
      modifies this
      ensures View() == After(old(View()), a)
      ensures Inv(View()) && Meant(old(View()), a, View())
    {
      StepMeans(View(), a);
      StepOf(a);
    }
  }

  /** A schedule without the steps that are not possible when their turn comes. */
  function Possibly<R>(s: State<R>, schedule: seq<Step<R>>): seq<Step<R>>
    decreases |schedule|
  {
    if schedule == [] then []
    else if Enabled(s, schedule[0]) then [schedule[0]] + Possibly(After(s, schedule[0]), schedule[1..])
    else Possibly(s, schedule[1..])
  }

  lemma PossiblyStep<R>(done: seq<Step<R>>, s: State<R>, schedule: seq<Step<R>>, i: nat)
    requires i < |schedule|
    ensures var a := schedule[i];
            done + Possibly(s, schedule[i..]) ==
            if Enabled(s, a) then done + [a] + Possibly(After(s, a), schedule[i + 1..])
            else done + Possibly(s, schedule[i + 1..])
  {
    assert schedule[i..][1..] == schedule[i + 1..];
    if Enabled(s, schedule[i]) {
      var rest := Possibly(After(s, schedule[i]), schedule[i + 1..]);
      Reassociate(done, schedule[i], rest);
    }
  }

  /** A schedule whose every step is possible in its turn is played as it is. */
  lemma {:induction false} PossiblyAll<R>(s: State<R>, schedule: seq<Step<R>>, t: State<R>)
    requires Reaches(s, schedule, t)
    ensures Possibly(s, schedule) == schedule
    decreases |schedule|
  {
    if schedule != [] {
      PossiblyAll(After(s, schedule[0]), schedule[1..], t);
      assert schedule == [schedule[0]] + schedule[1..];
    }
  }

  /** From any point on, the next step is played if it is possible then, and passed over
      if not. */
  lemma {:induction false} PossiblyNext<R>(s: State<R>, schedule: seq<Step<R>>, t: State<R>, a: Step<R>)
    requires Reaches(s, Possibly(s, schedule), t)
    ensures Possibly(s, schedule + [a]) == Possibly(s, schedule) + if Enabled(t, a) then [a] else []
    decreases |schedule|
  {
    if schedule == [] {
      assert ([] + [a])[1..] == [];
    } else {
      assert (schedule + [a])[1..] == schedule[1..] + [a];
      var b, rest := schedule[0], Possibly(s, schedule);
      if Enabled(s, b) {
        assert rest[1..] == Possibly(After(s, b), schedule[1..]);
        PossiblyNext(After(s, b), schedule[1..], t, a);
        assert [b] + (rest[1..] + if Enabled(t, a) then [a] else []) == rest + if Enabled(t, a) then [a] else [];
      } else {
        PossiblyNext(s, schedule[1..], t, a);
      }
    }
  }

  /** Plays any schedule on a logger; what is not possible when its turn comes is
      passed over, all the rest is played.  What has been written is a prefix of what has been posted, the
      rest waits in the queue; when the writer has left, it includes all that was
      posted before `stop_` was set.  `done` is the run the schedule comes to, so what
      holds of every run (NoSleepWithoutSignal, ShutdownEnds) holds of the logger. */
  method PlayLogger<R>(schedule: seq<Step<R>>) returns (l: AsyncLogger<R>, ghost done: seq<Step<R>>)
    ensures fresh(l) && done == Possibly(Start(), schedule) && Reaches(Start(), done, l.View()) && Inv(l.View())
    ensures l.posted == l.written + Backlog(l.View())
    ensures l.writer == Exited || l.closer == Joined ==> l.stop && l.atStop <= |l.written|
  {
    l := new AsyncLogger();
    done := [];
    for i := 0 to |schedule|
      invariant fresh(l) && Inv(l.View()) && Reaches(Start(), done, l.View())
      invariant done + Possibly(l.View(), schedule[i..]) == Possibly(Start(), schedule)
    {
      var a := schedule[i];
      PossiblyStep(done, l.View(), schedule, i);
      if Enabled(l.View(), a) {
        ReachesStep(Start(), done, l.View(), a);
        l.Take(a);
        done := done + [a];
      }
    }
  }
}
