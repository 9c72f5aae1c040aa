/** event_loop.cpp: how `stop` and the end of `run` meet.  One call of `stop`, from
    another thread or from inside the loop, and no exception escaping the loop. */
module StopHandshake {

  /** Where `run` is; `k` counts what is left of the batch at hand.  `process_events`
      stops between handlers when `stop_` is set, but still runs the ready timers. */
  datatype Loop =
    | Idle | Top | Tasks(k: nat) | InTask(k: nat) | BeforeWait | Blocked | AfterWait
    | Events(k: nat) | InHandler(k: nat) | Timers(k: nat) | InTimer(k: nat)
    | Leaving | AtBarrier | LoopWaits | LoopReleased(serial: bool) | LoopDone

  /** Where another thread's `stop` is. */
  datatype Stopper =
    | Out | Testing | Setting | WakingUp | WillSignal | Arriving
    | StopperWaits | StopperReleased(serial: bool) | ClearingTasks | ClearingTimers
    | Returned(met: bool)

  /** `destroys` counts calls of `stop_barrier_.destroy`, `begun` the tasks,
      handlers and timers started; `inside` says that the loop stopped itself. */
  datatype State = State(
    loop: Loop, stopper: Stopper, looping: bool, stop: bool, signal: bool,
    inside: bool, destroyed: bool, destroys: nat, begun: nat)

  datatype Step =
    | OtherSignal                 // someone else's eventfd write
    | CallStop                    // another thread calls stop
    | StopperMoves
    | LoopMoves(n: nat)           // n: the size of the batch found, if any
    | WaitReturns(bySignal: bool)
    | StopInside                  // the running task, handler or timer calls stop
    | Meet(loopIsSerial: bool)    // the barrier releases both

  function Start(): State {
    State(Idle, Out, false, false, false, false, false, 0, 0)
  }

  predicate Busy(l: Loop) {
    l.InTask? || l.InHandler? || l.InTimer?
  }

  predicate Enabled(s: State, a: Step) {
    match a
    case OtherSignal => true
    case CallStop => s.stopper == Out && !s.inside
    case StopperMoves =>
      s.stopper !in {Out, StopperWaits, Returned(true), Returned(false)}
    case LoopMoves(_) => s.loop !in {Blocked, LoopWaits, LoopDone}
    case WaitReturns(bySignal) => s.loop == Blocked && (bySignal ==> s.signal)
    case StopInside => Busy(s.loop) && s.stopper == Out && !s.inside
    case Meet(_) => s.loop == LoopWaits && s.stopper == StopperWaits
  }

  function Destroyed(s: State): State {
    s.(destroyed := true, destroys := s.destroys + 1)
  }

  /** One step of `run`. */
  function LoopStep(s: State, n: nat): State
    requires s.loop !in {Blocked, LoopWaits, LoopDone}
  {
    match s.loop
    case Idle => s.(looping := true, loop := Top)
    case Top => s.(loop := if s.stop then Leaving else Tasks(n))
    case Tasks(k) => if k == 0 then s.(loop := BeforeWait) else s.(loop := InTask(k - 1), begun := s.begun + 1)
    case InTask(k) => s.(loop := if s.stop then BeforeWait else Tasks(k))
    case BeforeWait => s.(loop := if s.stop then Leaving else Blocked)
    case AfterWait => s.(loop := if s.stop then Leaving else Events(n))
    case Events(k) => if k == 0 then s.(loop := Timers(n)) else s.(loop := InHandler(k - 1), begun := s.begun + 1)
    case InHandler(k) => s.(loop := if s.stop then Timers(n) else Events(k))
    case Timers(k) => if k == 0 then s.(loop := Top) else s.(loop := InTimer(k - 1), begun := s.begun + 1)
    case InTimer(k) => s.(loop := Timers(k))
    case Leaving => s.(looping := false, loop := AtBarrier)
    case AtBarrier => s.(loop := if s.destroyed then LoopDone else LoopWaits)
    case LoopReleased(serial) => (if serial then Destroyed(s) else s).(loop := LoopDone)
    case _ => s
  }

  /** One step of another thread's `stop`. */
  function StopperStep(s: State): State {
    match s.stopper
    case Testing => s.(stopper := if s.looping then Setting else Returned(false))
    case Setting => s.(stop := true, stopper := WakingUp)
    case WakingUp => s.(stopper := if s.looping then WillSignal else Arriving)
    case WillSignal => s.(signal := true, stopper := Arriving)
    case Arriving => s.(stopper := if s.destroyed then ClearingTasks else StopperWaits)
    case StopperReleased(serial) => (if serial then Destroyed(s) else s).(stopper := ClearingTasks)
    case ClearingTasks => s.(stopper := ClearingTimers)
    case ClearingTimers => s.(stopper := Returned(true))
    case _ => s
  }

  function After(s: State, a: Step): State
    requires Enabled(s, a)
  {
    match a
    case OtherSignal => s.(signal := true)
    case CallStop => s.(stopper := Testing)
    case StopperMoves => StopperStep(s)
    case LoopMoves(n) => LoopStep(s, n)
    case WaitReturns(bySignal) => s.(loop := AfterWait, signal := s.signal && !bySignal)
    case StopInside => (if s.destroyed then s else Destroyed(s)).(stop := true, inside := true)
    case Meet(l) => s.(loop := LoopReleased(l), stopper := StopperReleased(!l))
  }

  ghost predicate Reaches(s: State, run: seq<Step>, t: State)
    decreases |run|
  {
    if run == [] then s == t
    else Enabled(s, run[0]) && Reaches(After(s, run[0]), run[1..], t)
  }

  // ---------- the invariant ----------

  predicate Exiting(l: Loop) {
    l in {AtBarrier, LoopWaits, LoopDone} || l.LoopReleased?
  }

  predicate HasMet(p: Stopper) {
    p.StopperReleased? || p in {ClearingTasks, ClearingTimers, Returned(true)}
  }

  predicate BeforeMeeting(p: Stopper) {
    p in {WakingUp, WillSignal, Arriving, StopperWaits}
  }

  ghost predicate Flags(s: State) {
    && (s.looping <==> s.loop != Idle && !Exiting(s.loop))
    && (s.stop <==> s.inside || BeforeMeeting(s.stopper) || HasMet(s.stopper))
    && (s.inside ==> s.stopper == Out)
    && (s.loop == Leaving || Exiting(s.loop) ==> s.stop)
    && (s.stop || s.stopper == Setting ==> s.loop != Idle)
    && (s.loop == Blocked && s.stop ==> s.signal || s.stopper in {WakingUp, WillSignal})
    && (s.inside ==> s.loop != Blocked)
  }

  /** The barrier is destroyed by the loop's own stop, or by the one of the two
      threads that the barrier singles out, after both have met. */
  ghost predicate Meeting(s: State) {
    && (s.destroyed <==> s.destroys == 1) && s.destroys <= 1
    && (s.inside ==> s.destroyed && s.loop != LoopWaits && !s.loop.LoopReleased?)
    && (!s.inside ==> (HasMet(s.stopper) <==> s.loop.LoopReleased? || s.loop == LoopDone))
    && (!s.inside && !HasMet(s.stopper) ==> !s.destroyed)
    && (s.loop.LoopReleased? && s.stopper.StopperReleased? ==>
          !s.destroyed && s.loop.serial != s.stopper.serial)
    && (s.loop.LoopReleased? && HasMet(s.stopper) && !s.stopper.StopperReleased? ==>
          s.destroyed == !s.loop.serial)
    && (s.stopper.StopperReleased? && s.loop == LoopDone ==> s.destroyed == !s.stopper.serial)
    && (s.loop == LoopDone && HasMet(s.stopper) && !s.stopper.StopperReleased? ==> s.destroyed)
  }

  ghost predicate Inv(s: State) {
    Flags(s) && Meeting(s)
  }

  lemma LoopKeeps(s: State, n: nat)
    requires Inv(s) && Enabled(s, LoopMoves(n))
    ensures Inv(LoopStep(s, n))
  {
  }

  lemma StopperKeeps(s: State)
    requires Inv(s) && Enabled(s, StopperMoves)
    ensures Inv(StopperStep(s))
  {
  }

  lemma StepKeeps(s: State, a: Step)
    requires Inv(s) && Enabled(s, a)
    ensures Inv(After(s, a))
  {
    match a
    case LoopMoves(n) => LoopKeeps(s, n);
    case StopperMoves => StopperKeeps(s);
    case _ =>
  }

  lemma {:induction false} RunKeeps(s: State, run: seq<Step>, t: State)
    requires Inv(s) && Reaches(s, run, t)
    ensures Inv(t)
    decreases |run|
  {
    if run != [] {
      StepKeeps(s, run[0]);
      RunKeeps(After(s, run[0]), run[1..], t);
    }
  }

  // ---------- safety over every run ----------

  /** Both sides are through: the loop has ended, and `stop` has returned or was
      called inside the loop. */
  predicate Finished(s: State) {
    s.loop == LoopDone && (s.inside || s.stopper == Returned(true))
  }

  /** The barrier is destroyed at most once, never under a waiting thread, and
      exactly once when all is over. */
  lemma DestroyedOnce(run: seq<Step>, s: State, a: Step)
    requires Reaches(Start(), run, s) && Enabled(s, a)
    ensures s.destroys <= 1
    ensures After(s, a).destroys > s.destroys ==>
              !s.destroyed && s.loop != LoopWaits && s.stopper != StopperWaits
    ensures Finished(s) ==> s.destroys == 1
  {
    RunKeeps(Start(), run, s);
  }

  /** Once another thread's `stop` has met the loop and returned, no task, handler
      or timer starts any more. */
  lemma NothingStartsAfterStop(run: seq<Step>, s: State, later: seq<Step>, t: State)
    requires Reaches(Start(), run, s) && s.stopper == Returned(true) && Reaches(s, later, t)
    ensures t.begun == s.begun
  {
    RunKeeps(Start(), run, s);
    StaysEnded(s, later, t);
  }

  lemma {:induction false} StaysEnded(s: State, run: seq<Step>, t: State)
    requires (s.loop.LoopReleased? || s.loop == LoopDone) && s.stopper == Returned(true) && Reaches(s, run, t)
    ensures t.begun == s.begun
    decreases |run|
  {
    if run != [] {
      StaysEnded(After(s, run[0]), run[1..], t);
    }
  }

  /** `stop` returns without meeting the loop exactly when it looks before `run` has
      set `looping_`. */
  lemma ReturnsUnmet(run: seq<Step>, s: State)
    requires Reaches(Start(), run, s) && s.stopper == Testing
    ensures After(s, StopperMoves).stopper == Returned(false) <==> s.loop == Idle
  {
    RunKeeps(Start(), run, s);
  }

  /** A loop that was missed in this way is never stopped: `stop_` stays clear, the
      barrier is not destroyed, and `run` does not end. */
  lemma {:induction false} UnmetRunsOn(s: State, later: seq<Step>, t: State)
    requires Inv(s) && s.stopper == Returned(false) && Reaches(s, later, t)
    ensures t.stopper == Returned(false) && !t.stop && t.destroys == 0 && t.loop != LoopDone
    decreases |later|
  {
    if later != [] {
      StepKeeps(s, later[0]);
      UnmetRunsOn(After(s, later[0]), later[1..], t);
    }
  }

  /** Steps until the loop finds something to start. */
  function Distance(l: Loop): nat {
    match l
    case Tasks(k) => if k > 0 then 1 else 5
    case Events(k) => if k > 0 then 1 else 2
    case Timers(k) => if k > 0 then 1 else 3
    case Top => 2
    case AfterWait => 2
    case Idle => 3
    case Blocked => 3
    case BeforeWait => 4
    case _ => 6
  }

  /** From every state after it, something can still start. */
  lemma {:induction false} UnmetStartsLater(s: State) returns (later: seq<Step>, t: State)
    requires Inv(s) && s.stopper == Returned(false)
    ensures Reaches(s, later, t) && t.begun > s.begun
    decreases Distance(s.loop)
  {
    var a := if s.loop == Blocked then WaitReturns(false) else LoopMoves(1);
    StepKeeps(s, a);
    var next := After(s, a);
    if next.begun > s.begun {
      later, t := [], next;
    } else {
      later, t := UnmetStartsLater(next);
    }
    assert ([a] + later)[1..] == later;
    later := [a] + later;
  }

  ghost predicate CanFollow(s: State, t: State) {
    exists run :: Reaches(s, run, t)
  }

  /** After another thread's `stop` has returned nothing starts any more if and only
      if it has met the loop, that is: unless it looked before `run` set `looping_`. */
  lemma NothingStartsExactly(run: seq<Step>, s: State)
    requires Reaches(Start(), run, s) && s.stopper.Returned?
    ensures (forall t :: CanFollow(s, t) ==> t.begun == s.begun) <==> s.stopper.met
  {
    RunKeeps(Start(), run, s);
    if s.stopper.met {
      forall t | CanFollow(s, t)
        ensures t.begun == s.begun
      {
        var later :| Reaches(s, later, t);
        NothingStartsAfterStop(run, s, later, t);
      }
    } else {
      var later, t := UnmetStartsLater(s);
      assert CanFollow(s, t);
    }
  }

  /** The smallest such run: `stop` comes before `run`, and a task starts. */
  lemma UnmetStop() returns (run: seq<Step>, s: State)
    ensures Reaches(Start(), run, s) && s.stopper == Returned(false) && s.begun > 0
    ensures |run| >= 2 && run[0] == CallStop && run[1] == StopperMoves
  {
    var s1 := After(Start(), CallStop);
    var s2 := After(s1, StopperMoves);
    StepKeeps(Start(), CallStop);
    StepKeeps(s1, StopperMoves);
    run, s := UnmetStartsLater(s2);
    UnmetRunsOn(s2, run, s);
    assert ([StopperMoves] + run)[1..] == run;
    assert ([CallStop] + ([StopperMoves] + run))[1..] == [StopperMoves] + run;
    run := [CallStop] + ([StopperMoves] + run);
  }

  // ---------- progress ----------

  predicate Outsiders(a: Step) {
    a == OtherSignal || a == WaitReturns(false)
  }

  /** From `stop_` being set until both sides are through, one of the two can move
      without help from timeouts, events or other threads. */
  lemma NeverStuck(run: seq<Step>, s: State) returns (a: Step)
    requires Reaches(Start(), run, s) && s.stop && !Finished(s)
    ensures Enabled(s, a) && !Outsiders(a)
  {
    RunKeeps(Start(), run, s);
    if s.loop !in {Blocked, LoopWaits, LoopDone} {
      a := LoopMoves(0);
    } else if s.stopper !in {Out, StopperWaits, Returned(true), Returned(false)} {
      a := StopperMoves;
    } else if s.loop == Blocked {
      a := WaitReturns(true);
    } else {
      a := Meet(true);
    }
  }

  function LoopPhase(l: Loop): nat {
    match l
    case Events(_) => 9
    case InHandler(_) => 9
    case Timers(_) => 8
    case InTimer(_) => 8
    case Top => 7
    case Tasks(_) => 7
    case InTask(_) => 7
    case BeforeWait => 6
    case Blocked => 6
    case AfterWait => 5
    case Leaving => 4
    case AtBarrier => 3
    case LoopWaits => 2
    case LoopReleased(_) => 1
    case LoopDone => 0
    case Idle => 10
  }

  function StopperPhase(p: Stopper): nat {
    match p
    case WakingUp => 7
    case WillSignal => 6
    case Arriving => 5
    case StopperWaits => 4
    case StopperReleased(_) => 3
    case ClearingTasks => 2
    case ClearingTimers => 1
    case Returned(_) => 0
    case Out => 0
    case Testing => 9
    case Setting => 8
  }

  function Rest(l: Loop): nat {
    match l
    case Tasks(k) => 2 * k
    case InTask(k) => 2 * k + 1
    case Events(k) => 2 * k
    case InHandler(k) => 2 * k + 1
    case Timers(k) => 2 * k
    case InTimer(k) => 2 * k + 1
    case _ => 0
  }

  function Phase(s: State): nat {
    LoopPhase(s.loop) + StopperPhase(s.stopper)
  }

  predicate Descends(s: State, t: State) {
    Phase(t) < Phase(s) || (Phase(t) == Phase(s) && Rest(t.loop) < Rest(s.loop))
  }

  lemma LoopDescends(s: State, n: nat)
    requires Inv(s) && s.stop && Enabled(s, LoopMoves(n))
    ensures LoopStep(s, n).stop && Descends(s, LoopStep(s, n))
  {
  }

  lemma StopperDescends(s: State)
    requires Inv(s) && s.stop && Enabled(s, StopperMoves)
    ensures StopperStep(s).stop && Descends(s, StopperStep(s))
  {
  }

  /** After `stop_` is set every step of either side, whatever it finds to do,
      comes closer to the end: no run of the handshake goes on for ever. */
  lemma EveryStepDescends(run: seq<Step>, s: State, a: Step)
    requires Reaches(Start(), run, s) && s.stop && Enabled(s, a) && a != OtherSignal
    ensures After(s, a).stop && Descends(s, After(s, a))
  {
    RunKeeps(Start(), run, s);
    match a
    case LoopMoves(n) => LoopDescends(s, n);
    case StopperMoves => StopperDescends(s);
    case _ =>
  }
}
