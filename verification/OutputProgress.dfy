/** posix_tcp_ostream.cpp, edge-triggered: who is responsible for the bytes that
    wait to be sent.  Posters append, then look at `complete_`, then post an
    `on_write` task; the loop runs `on_write` for such tasks and for write events. */
module OutputProgress {
  import opened OutQueue
  import opened OutSchedule

  /** Where the loop is in `on_write`: outside of it, about to look at `flags_`, at
      `next_buffer_` and `complete_`, to clear `complete_`, to read the indices, or
      with a window of `valid` bytes offered to the socket. */
  datatype Pc = Away | Head | Testing | Clearing | Measuring | Sending(valid: nat)

  /** `next_buffer_` is null exactly when `windex` is 0 (OutStream.Valid).  `appended`
      counts posters that have yet to look at `complete_`, `posting` those that have
      seen it clear, `tasks` the `on_write` tasks in the loop's queue; `stopped` is
      any of the flags that make `on_write` give up. */
  datatype State = State(
    pc: Pc, rindex: nat, windex: nat, complete: bool, appended: nat, posting: nat, tasks: nat,
    stopped: bool, error: bool)

  datatype Step =
    | Append(n: nat)
    | LookComplete
    | PostTask
    | BeginTask
    | BeginEvent
    | TestFlags
    | TestIdle
    | ClearComplete
    | Snapshot
    | Answered(answer: Answer)
    | SetStopped

  function Start(): State {
    State(Away, 0, 0, false, 0, 0, 0, false, false)
  }

  predicate Enabled(s: State, a: Step) {
    match a
    case Append(n) => n > 0
    case LookComplete => s.appended > 0
    case PostTask => s.posting > 0
    case BeginTask => s.pc == Away && s.tasks > 0
    case BeginEvent => s.pc == Away
    case TestFlags => s.pc == Head
    case TestIdle => s.pc == Testing
    case ClearComplete => s.pc == Clearing
    case Snapshot => s.pc == Measuring && Indices(s.rindex, s.windex)
    case Answered(_) => s.pc.Sending? && s.pc.valid <= s.windex
    case SetStopped => true
  }

  /** The locked section after a send that took all of `size` bytes. */
  function Commit(s: State, size: nat): State
    requires size <= s.windex
  {
    var r := s.rindex + size;
    if r == OUT_BUFFER_SIZE || r == s.windex then s.(rindex := 0, windex := s.windex - size) else s.(rindex := r)
  }

  function After(s: State, a: Step): State
    requires Enabled(s, a)
  {
    match a
    case Append(n) => s.(windex := s.windex + n, appended := s.appended + 1)
    case LookComplete => s.(appended := s.appended - 1, posting := if s.complete then s.posting else s.posting + 1)
    case PostTask => s.(posting := s.posting - 1, tasks := s.tasks + 1)
    case BeginTask => s.(tasks := s.tasks - 1, pc := Head)
    case BeginEvent => s.(pc := Head)
    case TestFlags => s.(pc := if s.stopped then Away else Testing)
    case TestIdle => s.(pc := if s.windex == 0 && !s.complete then Away else Clearing)
    case ClearComplete => s.(complete := false, pc := Measuring)
    case Snapshot => s.(pc := Sending(Offer(s.rindex, s.windex)))
    case Answered(Takes(room)) =>
      (if room < s.pc.valid then s else Commit(s, s.pc.valid)).(error := false, pc := Head)
    case Answered(Fails(e)) =>
      if e == EINTR then s.(pc := Head)
      else if e == EAGAIN then s.(complete := true, pc := Away)
      else s.(error := true, pc := Away)
    case SetStopped => s.(stopped := true)
  }

  ghost predicate Reaches(s: State, run: seq<Step>, t: State)
    decreases |run|
  {
    if run == [] then s == t
    else Enabled(s, run[0]) && Reaches(After(s, run[0]), run[1..], t)
  }

  /** Somebody will see to the bytes that wait: `complete_` is set, so the next
      write event will, or `on_write` runs or is queued, or a poster is on its way
      to queue it, or the session is past writing. */
  predicate Attended(s: State) {
    s.complete || s.pc != Away || s.tasks > 0 || s.appended > 0 || s.posting > 0 || s.stopped || s.error
  }

  predicate Inv(s: State) {
    && Indices(s.rindex, s.windex)
    && (s.windex > 0 ==> Attended(s))
    && (s.complete ==> s.windex > 0 && s.pc in {Away, Head, Testing, Clearing})
    && (s.pc in {Clearing, Measuring} ==> s.windex > 0)
    && (s.pc.Sending? ==> 0 < s.pc.valid <= Offer(s.rindex, s.windex))
  }

  lemma AnswerKeeps(s: State, answer: Answer)
    requires Inv(s) && Enabled(s, Answered(answer))
    ensures Inv(After(s, Answered(answer)))
  {
  }

  lemma StepKeeps(s: State, a: Step)
    requires Inv(s) && Enabled(s, a)
    ensures Inv(After(s, a))
  {
    match a
    case Answered(answer) => AnswerKeeps(s, answer);
    case _ =>
  }

  lemma {:induction false} RunKeeps(s: State, run: seq<Step>, t: State)
    requires Inv(s) && Reaches(s, run, t)
    ensures Inv(t)
    decreases |run|
  {
    if run != [] {
      StepKeeps(s, run[0]);
      RunKeeps(After(s, run[0]), run[1..], t);
    }
  }

  /** In every interleaving, with any appends and answers, no queued byte is left
      without somebody to send it, the window measured is never empty, and what the
      loop does next is always possible. */
  lemma NoStrandedOutput(run: seq<Step>, s: State)
    requires Reaches(Start(), run, s)
    ensures Indices(s.rindex, s.windex) && (s.windex > s.rindex ==> Attended(s))
    ensures s.pc.Sending? ==> 0 < s.pc.valid <= Offer(s.rindex, s.windex)
    ensures s.pc == Measuring ==> Enabled(s, Snapshot)
    ensures s.pc.Sending? ==> forall answer :: Enabled(s, Answered(answer))
  {
    RunKeeps(Start(), run, s);
  }
}
