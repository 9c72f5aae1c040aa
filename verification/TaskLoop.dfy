/** event_loop.cpp: posting tasks to the loop from any thread, the eventfd wakeup,
    and the order in which tasks run. */
module TaskLoop {

  /** Who pushed a task: another thread, a handler running in the loop, or a task
      running in the loop. */
  datatype Origin = OtherThread | Handler | InsideTask

  /** `id` is the task's position in the order of the pushes. */
  datatype Task = Task(id: nat, origin: Origin)

  /** Where `run` is; `Blocked` is inside the reactor's wait, `Leaving` past the loop
      with `looping_` still set. */
  datatype Pc =
    | Starting | Top | Swapping | Tasks | InTask | BeforeWait | Blocked | AfterWait | Handling | Leaving | Stopped

  /** `batch` is the queue swapped out by `process_tasks`.  `pushing` are the tasks
      whose poster has pushed but not yet looked at `looping_`, `waking` those whose
      poster has seen it set but not yet written the eventfd.  `pushed` and
      `executed` record history. */
  datatype State = State(
    pc: Pc, looping: bool, stop: bool, signal: bool, taskq: seq<Task>, batch: seq<Task>,
    pushing: set<nat>, waking: set<nat>, pushed: seq<Task>, executed: seq<Task>, cleared: bool)

  datatype Step =
    | Push                 // another thread: the locked push of run_in_loop
    | LookLooping(id: nat) // another thread: the test in wakeup
    | Signal(id: nat)      // another thread: the eventfd write
    | SetLooping
    | TestTop              // while (!stop_)
    | Swap
    | BeginTask
    | PostFromTask
    | EndTask
    | TasksDone
    | TestBeforeWait
    | Return(bySignal: bool) // the reactor's wait returns
    | TestAfterWait
    | PostFromHandler
    | EventsDone
    | ClearLooping
    | RequestStop
    | Clear                // stop: taskq_.clear()

  function Start(): State {
    State(Starting, false, false, false, [], [], {}, {}, [], [], false)
  }

  function PushTask(s: State, origin: Origin): State {
    var t := Task(|s.pushed|, origin);
    s.(taskq := s.taskq + [t], pushed := s.pushed + [t])
  }

  predicate Enabled(s: State, a: Step) {
    match a
    case Push => true
    case LookLooping(id) => id in s.pushing
    case Signal(id) => id in s.waking
    case SetLooping => s.pc == Starting
    case TestTop => s.pc == Top
    case Swap => s.pc == Swapping
    case BeginTask => s.pc == Tasks && s.batch != []
    case PostFromTask => s.pc == InTask
    case EndTask => s.pc == InTask
    case TasksDone => s.pc == Tasks && s.batch == []
    case TestBeforeWait => s.pc == BeforeWait
    case Return(bySignal) => s.pc == Blocked && (bySignal ==> s.signal)
    case TestAfterWait => s.pc == AfterWait
    case PostFromHandler => s.pc == Handling
    case EventsDone => s.pc == Handling
    case ClearLooping => s.pc == Leaving
    case RequestStop => true
    case Clear => s.stop && s.pc in {InTask, Handling, Leaving, Stopped}
  }

  function After(s: State, a: Step): State
    requires Enabled(s, a)
  {
    match a
    case Push => PushTask(s, OtherThread).(pushing := s.pushing + {|s.pushed|})
    case LookLooping(id) =>
      s.(pushing := s.pushing - {id}, waking := if s.looping then s.waking + {id} else s.waking)
    case Signal(id) => s.(waking := s.waking - {id}, signal := true)
    case SetLooping => s.(looping := true, pc := Top)
    case TestTop => if s.stop then s.(pc := Leaving) else s.(pc := Swapping)
    case Swap => s.(batch := s.taskq, taskq := [], pc := Tasks)
    case BeginTask => s.(executed := s.executed + [s.batch[0]], batch := s.batch[1..], pc := InTask)
    case PostFromTask => PushTask(s, InsideTask)
    case EndTask => s.(pc := if s.stop then BeforeWait else Tasks)
    case TasksDone => s.(pc := BeforeWait)
    case TestBeforeWait => if s.stop then s.(pc := Leaving) else s.(pc := Blocked)
    case Return(bySignal) => s.(pc := AfterWait, signal := s.signal && !bySignal)
    case TestAfterWait => if s.stop then s.(pc := Leaving) else s.(pc := Handling)
    case PostFromHandler => PushTask(s, Handler)
    case EventsDone => s.(pc := Top)
    case ClearLooping => s.(pc := Stopped, looping := false)
    case RequestStop => s.(stop := true)
    case Clear => s.(taskq := [], cleared := true)
  }

  ghost predicate Reaches(s: State, run: seq<Step>, t: State)
    decreases |run|
  {
    if run == [] then s == t
    else Enabled(s, run[0]) && Reaches(After(s, run[0]), run[1..], t)
  }

  // ---------- the invariant ----------

  /** Between the swap and the end of the wait, a queued task has a wakeup on its
      way, or was pushed by a task. */
  predicate Announced(s: State, t: Task) {
    t.origin == InsideTask || s.signal || t.id in s.pushing || t.id in s.waking
  }

  predicate Swapped(pc: Pc) {
    pc in {Tasks, InTask, BeforeWait, Blocked}
  }

  ghost predicate Wakeups(s: State) {
    && (s.looping <==> s.pc !in {Starting, Stopped})
    && (Swapped(s.pc) ==> forall t :: t in s.taskq ==> Announced(s, t) && t.origin != Handler)
  }

  ghost predicate Order(s: State) {
    && s.executed + s.batch <= s.pushed
    && (!s.cleared ==> s.executed + s.batch + s.taskq == s.pushed)
    && (s.cleared ==> s.stop && s.pc !in {Starting, Swapping, Tasks, Blocked})
    && (s.pc !in {Tasks, InTask} ==> s.batch == [] || (s.stop && s.pc in {BeforeWait, Leaving, Stopped}))
  }

  ghost predicate Inv(s: State) {
    Wakeups(s) && Order(s)
  }

  lemma PushKept(s: State, origin: Origin)
    requires Order(s)
    ensures Order(PushTask(s, origin))
  {
    var done := s.executed + s.batch;
    assert done + PushTask(s, origin).taskq == done + s.taskq + [Task(|s.pushed|, origin)];
  }

  lemma BeginKept(s: State)
    requires Inv(s) && Enabled(s, BeginTask)
    ensures Order(After(s, BeginTask))
  {
    var t := After(s, BeginTask);
    assert t.executed + t.batch == s.executed + s.batch;
  }

  lemma OrderKept(s: State, a: Step)
    requires Inv(s) && Enabled(s, a)
    ensures Order(After(s, a))
  {
    match a
    case Push => PushKept(s, OtherThread);
    case PostFromTask => PushKept(s, InsideTask);
    case PostFromHandler => PushKept(s, Handler);
    case BeginTask => BeginKept(s);
    case _ =>
  }

  lemma WakeupsKept(s: State, a: Step)
    requires Inv(s) && Enabled(s, a)
    ensures Wakeups(After(s, a))
  {
  }

  lemma {:induction false} RunKeeps(s: State, run: seq<Step>, t: State)
    requires Inv(s) && Reaches(s, run, t)
    ensures Inv(t)
    decreases |run|
  {
    if run != [] {
      OrderKept(s, run[0]);
      WakeupsKept(s, run[0]);
      RunKeeps(After(s, run[0]), run[1..], t);
    }
  }

  // ---------- no lost wakeup ----------

  /** While the loop is blocked, every queued task that was not pushed by a task
      has a signal pending or a poster that has yet to finish its wakeup; what a
      handler pushed is never among them. */
  lemma NoLostWakeup(run: seq<Step>, s: State)
    requires Reaches(Start(), run, s) && s.pc == Blocked
    ensures forall t :: t in s.taskq && t.origin != InsideTask ==>
              t.origin == OtherThread && (s.signal || t.id in s.pushing || t.id in s.waking)
  {
    RunKeeps(Start(), run, s);
  }

  /** The loop is blocked and nobody is about to wake it. */
  predicate Quiet(s: State) {
    s.pc == Blocked && !s.signal && s.pushing == {} && s.waking == {}
  }

  predicate HasInside(tasks: seq<Task>) {
    exists i :: 0 <= i < |tasks| && tasks[i].origin == InsideTask
  }

  predicate InsideAfter(a: Step, before: bool) {
    if a == PostFromTask then true else if a in {Swap, Clear} then false else before
  }

  /** Has a task posted to its own loop since the queue was last emptied? */
  predicate PostedSince(run: seq<Step>, before: bool)
    decreases |run|
  {
    if run == [] then before else PostedSince(run[1..], InsideAfter(run[0], before))
  }

  lemma InsideStep(s: State, a: Step)
    requires Enabled(s, a)
    ensures HasInside(After(s, a).taskq) <==> InsideAfter(a, HasInside(s.taskq))
  {
    var q := After(s, a).taskq;
    if |q| > |s.taskq| {
      assert q[|s.taskq|].origin == InsideTask <==> a == PostFromTask;
      assert forall i :: 0 <= i < |s.taskq| ==> q[i] == s.taskq[i];
    }
  }

  lemma {:induction false} InsideRun(s: State, run: seq<Step>, t: State)
    requires Reaches(s, run, t)
    ensures HasInside(t.taskq) <==> PostedSince(run, HasInside(s.taskq))
    decreases |run|
  {
    if run != [] {
      InsideStep(s, run[0]);
      InsideRun(After(s, run[0]), run[1..], t);
    }
  }

  /** A loop that blocks with nobody about to wake it leaves tasks behind exactly
      when some task has posted to its own loop since the queue was last swapped
      out or cleared; all that is left behind was posted that way. */
  lemma StrandedExactly(run: seq<Step>, s: State)
    requires Reaches(Start(), run, s) && Quiet(s)
    ensures s.taskq != [] <==> PostedSince(run, false)
    ensures forall t :: t in s.taskq ==> t.origin == InsideTask
  {
    NoLostWakeup(run, s);
    InsideRun(Start(), run, s);
    assert s.taskq != [] ==> s.taskq[0] in s.taskq;
  }

  lemma Prepend(s: State, a: Step, run: seq<Step>, t: State)
    requires Enabled(s, a) && Reaches(After(s, a), run, t)
    ensures Reaches(s, [a] + run, t)
  {
    assert ([a] + run)[1..] == run;
  }

  /** Such a task can be left behind: one task runs, posts another and ends; the
      loop blocks with that one queued and no signal. */
  lemma StrandedTask() returns (run: seq<Step>, s: State)
    ensures Reaches(Start(), run, s) && Quiet(s) && !s.stop
    ensures s.taskq == [Task(1, InsideTask)]
  {
    var s1 := After(Start(), Push);
    var s2 := After(s1, LookLooping(0));
    var s3 := After(s2, SetLooping);
    var s4 := After(s3, TestTop);
    var s5 := After(s4, Swap);
    var s6 := After(s5, BeginTask);
    var s7 := After(s6, PostFromTask);
    var s8 := After(s7, EndTask);
    var s9 := After(s8, TasksDone);
    s := After(s9, TestBeforeWait);
    run := StrandingTail(s5, s6, s7, s8, s9, s);
    Prepend(s4, Swap, run, s);
    run := [Swap] + run;
    Prepend(s3, TestTop, run, s);
    run := [TestTop] + run;
    Prepend(s2, SetLooping, run, s);
    run := [SetLooping] + run;
    Prepend(s1, LookLooping(0), run, s);
    run := [LookLooping(0)] + run;
    Prepend(Start(), Push, run, s);
    run := [Push] + run;
  }

  lemma StrandingTail(s5: State, s6: State, s7: State, s8: State, s9: State, s: State) returns (run: seq<Step>)
    requires Enabled(s5, BeginTask) && s6 == After(s5, BeginTask)
    requires Enabled(s6, PostFromTask) && s7 == After(s6, PostFromTask)
    requires Enabled(s7, EndTask) && s8 == After(s7, EndTask)
    requires Enabled(s8, TasksDone) && s9 == After(s8, TasksDone)
    requires Enabled(s9, TestBeforeWait) && s == After(s9, TestBeforeWait)
    ensures Reaches(s5, run, s)
  {
    run := [];
    Prepend(s9, TestBeforeWait, run, s);
    run := [TestBeforeWait] + run;
    Prepend(s8, TasksDone, run, s);
    run := [TasksDone] + run;
    Prepend(s7, EndTask, run, s);
    run := [EndTask] + run;
    Prepend(s6, PostFromTask, run, s);
    run := [PostFromTask] + run;
    Prepend(s5, BeginTask, run, s);
    run := [BeginTask] + run;
  }

  // ---------- order ----------

  /** Tasks run in the order they were pushed, none twice and none skipped: what
      has run, then the swapped-out rest, then the queue, is what was pushed.
      After `stop` has cleared the queue only the last part is gone. */
  lemma TasksInOrder(run: seq<Step>, s: State)
    requires Reaches(Start(), run, s)
    ensures s.executed + s.batch <= s.pushed
    ensures !s.cleared ==> s.executed + s.batch + s.taskq == s.pushed
  {
    RunKeeps(Start(), run, s);
  }

  predicate Ending(s: State) {
    s.stop || s.pc in {Leaving, Stopped}
  }

  /** How many tasks can still start. */
  function Quota(s: State): nat {
    if s.pc in {Swapping, Tasks} then 1 else 0
  }

  lemma EndingStep(s: State, a: Step)
    requires Ending(s) && Enabled(s, a)
    ensures Ending(After(s, a)) && s.executed <= After(s, a).executed
    ensures |After(s, a).executed| + Quota(After(s, a)) <= |s.executed| + Quota(s)
  {
  }

  /** Once `stop_` is set at most one more task starts, and only if the loop had passed
      its test by then; none at all once the loop has ended. */
  lemma {:induction false} OneMoreAfterStop(s: State, run: seq<Step>, t: State)
    requires Reaches(s, run, t) && Ending(s)
    ensures s.executed <= t.executed && |t.executed| <= |s.executed| + Quota(s)
    decreases |run|
  {
    if run != [] {
      EndingStep(s, run[0]);
      OneMoreAfterStop(After(s, run[0]), run[1..], t);
    }
  }
}
