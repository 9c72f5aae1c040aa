/** win_barrier.h: a barrier made of a mutex, a condition variable and two
    counters, for one round after `reinit`.  A step is one critical section; a
    thread that waits on the condition variable is asleep until a signal or a
    spurious wakeup makes it compete for the mutex again. */
module Barrier {
  import opened Wrappers

  datatype Pc = Outside | Asleep | Awake | Left(last: bool)

  /** `in_`, `out_` and where each of the `count_` threads is. */
  datatype State = State(inside: nat, out: nat, pcs: seq<Pc>)

  /** The scheduler's choice; `w` and `v` are the threads woken by the signals. */
  datatype Step =
    | Enter(t: nat, w: Option<nat>, v: Option<nat>)
    | Resume(t: nat, w: Option<nat>)
    | Spurious(t: nat)

  function Start(count: nat): State {
    State(0, 0, seq(count, i => Outside))
  }

  // ---------- steps ----------

  /** `signal` wakes one sleeper when there is one. */
  predicate Wakes(pcs: seq<Pc>, w: Option<nat>) {
    match w
    case None => Asleep !in pcs
    case Some(t) => t < |pcs| && pcs[t] == Asleep
  }

  function Woken(pcs: seq<Pc>, w: Option<nat>): seq<Pc>
    requires Wakes(pcs, w)
  {
    if w.Some? then pcs[w.value := Awake] else pcs
  }

  /** The end of `wait`: count down, and wake the next thread unless last. */
  predicate CanLeave(s: State, t: nat, w: Option<nat>) {
    && t < |s.pcs| && s.out > 0
    && (s.out > 1 ==> Wakes(s.pcs[t := Left(false)], w))
  }

  function Leave(s: State, t: nat, w: Option<nat>): State
    requires CanLeave(s, t, w)
  {
    var out := s.out - 1;
    var pcs := s.pcs[t := Left(out == 0)];
    s.(out := out, pcs := if out != 0 then Woken(pcs, w) else pcs)
  }

  /** The last thread to enter resets `in_`, sets `out_` and signals. */
  function Release(s: State, t: nat, w: Option<nat>): State
    requires t < |s.pcs| && Wakes(s.pcs, w)
  {
    State(0, |s.pcs|, Woken(s.pcs, w))
  }

  predicate Enabled(s: State, a: Step) {
    match a
    case Enter(t, w, v) =>
      && t < |s.pcs| && s.pcs[t] == Outside
      && (s.inside + 1 == |s.pcs| ==> Wakes(s.pcs, w) && CanLeave(Release(s, t, w), t, v))
    case Resume(t, w) =>
      && t < |s.pcs| && s.pcs[t] == Awake
      && (s.inside == 0 ==> CanLeave(s, t, w))
    case Spurious(t) =>
      t < |s.pcs| && s.pcs[t] == Asleep
  }

  function After(s: State, a: Step): State
    requires Enabled(s, a)
  {
    match a
    case Enter(t, w, v) =>
      if s.inside + 1 == |s.pcs| then Leave(Release(s, t, w), t, v)
      else s.(inside := s.inside + 1, pcs := s.pcs[t := Asleep])
    case Resume(t, w) =>
      if s.inside == 0 then Leave(s, t, w) else s.(pcs := s.pcs[t := Asleep])
    case Spurious(t) =>
      s.(pcs := s.pcs[t := Awake])
  }

  ghost predicate Reaches(s: State, run: seq<Step>, t: State)
    decreases |run|
  {
    if run == [] then s == t
    else Enabled(s, run[0]) && Reaches(After(s, run[0]), run[1..], t)
  }

  // ---------- the invariant ----------

  ghost function Num(s: State, p: Pc): nat {
    multiset(s.pcs)[p]
  }

  /** Nobody has been released: `in_` counts the threads that wait. */
  ghost predicate Gathering(s: State) {
    && s.out == 0 && s.inside < |s.pcs|
    && s.inside == Num(s, Asleep) + Num(s, Awake)
    && Num(s, Left(true)) == Num(s, Left(false)) == 0
  }

  /** Everybody has entered: `out_` counts those who have not left, one of them
      is awake, and only the one who leaves last is told so. */
  ghost predicate Draining(s: State) {
    && s.inside == 0 && Num(s, Outside) == 0
    && s.out == Num(s, Asleep) + Num(s, Awake)
    && (s.out > 0 ==> Num(s, Awake) > 0)
    && Num(s, Left(true)) == if s.out == 0 then 1 else 0
  }

  ghost predicate Inv(s: State) {
    Gathering(s) || Draining(s)
  }

  lemma {:induction false} NumTotal(pcs: seq<Pc>)
    ensures var m := multiset(pcs);
            m[Outside] + m[Asleep] + m[Awake] + m[Left(true)] + m[Left(false)] == |pcs|
  {
    if pcs == [] {
      assert multiset(pcs) == multiset{};
    } else {
      NumTotal(pcs[1..]);
      assert pcs == [pcs[0]] + pcs[1..];
      assert multiset(pcs) == multiset{pcs[0]} + multiset(pcs[1..]);
      assert pcs[0].Left? ==> pcs[0] == Left(true) || pcs[0] == Left(false);
    }
  }

  lemma WokenNum(pcs: seq<Pc>, w: Option<nat>)
    requires Wakes(pcs, w)
    ensures var m, m' := multiset(pcs), multiset(Woken(pcs, w));
            && (forall p :: p != Asleep && p != Awake ==> m'[p] == m[p])
            && m'[Asleep] + m'[Awake] == m[Asleep] + m[Awake]
            && m'[Asleep] == (if m[Asleep] > 0 then m[Asleep] - 1 else 0)
            && (m[Asleep] + m[Awake] > 0 ==> m'[Awake] > 0)
  {
    if w.None? {
      assert Asleep !in multiset(pcs);
    }
  }

  lemma LeaveKeeps(s: State, t: nat, w: Option<nat>)
    requires CanLeave(s, t, w) && s.pcs[t] in {Outside, Awake} && s.inside == 0
    requires s.out == Num(s, Asleep) + Num(s, Awake) + Num(s, Outside)
    requires Num(s, Outside) == (if s.pcs[t] == Outside then 1 else 0) && Num(s, Left(true)) == 0
    ensures Draining(Leave(s, t, w))
    ensures Num(Leave(s, t, w), Asleep) == (if Num(s, Asleep) > 0 then Num(s, Asleep) - 1 else 0)
  {
    var pcs := s.pcs[t := Left(s.out == 1)];
    if s.out > 1 {
      WokenNum(pcs, w);
    }
  }

  /** The entry that completes the round. */
  lemma LastEntryKeeps(s: State, t: nat, w: Option<nat>, v: Option<nat>)
    requires Gathering(s) && Enabled(s, Enter(t, w, v)) && s.inside + 1 == |s.pcs|
    ensures Draining(After(s, Enter(t, w, v)))
  {
    NumTotal(s.pcs);
    WokenNum(s.pcs, w);
    LeaveKeeps(Release(s, t, w), t, v);
  }

  lemma EnterKeeps(s: State, t: nat, w: Option<nat>, v: Option<nat>)
    requires Inv(s) && Enabled(s, Enter(t, w, v))
    ensures Gathering(s)
    ensures if s.inside + 1 == |s.pcs| then Draining(After(s, Enter(t, w, v))) else Gathering(After(s, Enter(t, w, v)))
  {
    NumTotal(s.pcs);
    assert s.pcs[t] in multiset(s.pcs);
    if s.inside + 1 == |s.pcs| {
      LastEntryKeeps(s, t, w, v);
    }
  }

  lemma ResumeKeeps(s: State, t: nat, w: Option<nat>)
    requires Inv(s) && Enabled(s, Resume(t, w))
    ensures s.inside == 0 <==> Draining(s)
    ensures if s.inside == 0 then Draining(After(s, Resume(t, w))) else Gathering(After(s, Resume(t, w)))
  {
    NumTotal(s.pcs);
    assert s.pcs[t] in multiset(s.pcs);
    if s.inside == 0 {
      LeaveKeeps(s, t, w);
    }
  }

  lemma StepKeeps(s: State, a: Step)
    requires Inv(s) && Enabled(s, a)
    ensures Inv(After(s, a))
    ensures Draining(s) ==> Draining(After(s, a))
  {
    match a
    case Enter(t, w, v) => EnterKeeps(s, t, w, v);
    case Resume(t, w) => ResumeKeeps(s, t, w);
    case Spurious(t) => assert s.pcs[t] in multiset(s.pcs);
  }

  lemma {:induction false} RunKeeps(s: State, run: seq<Step>, t: State)
    requires Inv(s) && Reaches(s, run, t)
    ensures Inv(t) && |t.pcs| == |s.pcs|
    decreases |run|
  {
    if run != [] {
      StepKeeps(s, run[0]);
      RunKeeps(After(s, run[0]), run[1..], t);
    }
  }

  lemma StartHolds(count: nat)
    requires count > 0
    ensures Gathering(Start(count))
    ensures Num(Start(count), Outside) == count
  {
    NumTotal(Start(count).pcs);
    assert forall p :: p in Start(count).pcs ==> p == Outside;
  }

  // ---------- safety over every run ----------

  /** Under any schedule, with any spurious wakeups: nobody leaves before all have
      entered; at most one thread is told it is the last; and when it is, all the
      others have left and both counters are 0, as `destroy` asserts.  Once all have
      entered, `out_` is the number still inside and one of them is awake. */
  lemma RoundIsSafe(count: nat, run: seq<Step>, s: State)
    requires count > 0 && Reaches(Start(count), run, s)
    ensures (exists t :: 0 <= t < |s.pcs| && s.pcs[t].Left?) ==> Outside !in s.pcs
    ensures forall t, u :: 0 <= t < u < |s.pcs| ==> !(s.pcs[t] == Left(true) && s.pcs[u] == Left(true))
    ensures Left(true) in s.pcs ==>
              s.inside == 0 && s.out == 0 && forall t :: 0 <= t < |s.pcs| ==> s.pcs[t].Left?
    ensures (forall t :: 0 <= t < |s.pcs| ==> s.pcs[t].Left?) ==> Left(true) in s.pcs
    ensures Outside !in s.pcs ==> s.out == Num(s, Asleep) + Num(s, Awake) && (s.out > 0 ==> Awake in s.pcs)
    ensures Awake in s.pcs && s.inside == 0 ==> s.out > 0
  {
    StartHolds(count);
    RunKeeps(Start(count), run, s);
    NumTotal(s.pcs);
    forall t | 0 <= t < |s.pcs|
      ensures Num(s, s.pcs[t]) > 0
    {
      Present(s, s.pcs[t]);
    }
    Present(s, Outside);
    Present(s, Awake);
    Present(s, Left(true));
    forall t, u | 0 <= t < u < |s.pcs| && s.pcs[t] == Left(true) && s.pcs[u] == Left(true)
      ensures false
    {
      TwoCopies(s.pcs, t, u);
    }
    if forall t :: 0 <= t < |s.pcs| ==> s.pcs[t].Left? {
      Present(s, Asleep);
      Present(s, Awake);
    }
  }

  lemma Present(s: State, p: Pc)
    ensures Num(s, p) > 0 <==> p in s.pcs
  {
  }

  lemma TwoCopies(pcs: seq<Pc>, t: nat, u: nat)
    requires t < u < |pcs| && pcs[t] == pcs[u]
    ensures multiset(pcs)[pcs[t]] >= 2
  {
    assert pcs == pcs[..u] + pcs[u..];
    assert multiset(pcs) == multiset(pcs[..u]) + multiset(pcs[u..]);
    assert pcs[..u][t] in multiset(pcs[..u]) && pcs[u..][0] in multiset(pcs[u..]);
  }

  // ---------- progress ----------

  /** Entering and leaving use up the measure; falling asleep again would not, but
      without spurious wakeups nobody wakes before the release. */
  ghost function Measure(s: State): nat {
    3 * Num(s, Outside) + 2 * Num(s, Asleep) + Num(s, Awake)
  }

  ghost predicate Quiet(s: State) {
    Inv(s) && (Gathering(s) ==> Num(s, Awake) == 0)
  }

  lemma QuietEnter(s: State, t: nat, w: Option<nat>, v: Option<nat>)
    requires Quiet(s) && Enabled(s, Enter(t, w, v))
    ensures Quiet(After(s, Enter(t, w, v))) && Measure(After(s, Enter(t, w, v))) < Measure(s)
  {
    EnterKeeps(s, t, w, v);
    NumTotal(s.pcs);
    assert s.pcs[t] in multiset(s.pcs);
    if s.inside + 1 == |s.pcs| {
      WokenNum(s.pcs, w);
      LeaveKeeps(Release(s, t, w), t, v);
      NumTotal(After(s, Enter(t, w, v)).pcs);
    }
  }

  lemma QuietResume(s: State, t: nat, w: Option<nat>)
    requires Quiet(s) && Enabled(s, Resume(t, w))
    ensures Quiet(After(s, Resume(t, w))) && Measure(After(s, Resume(t, w))) < Measure(s)
  {
    ResumeKeeps(s, t, w);
    NumTotal(s.pcs);
    NumTotal(After(s, Resume(t, w)).pcs);
    assert s.pcs[t] in multiset(s.pcs);
    LeaveKeeps(s, t, w);
  }

  lemma QuietStep(s: State, a: Step)
    requires Quiet(s) && Enabled(s, a) && !a.Spurious?
    ensures Quiet(After(s, a)) && Measure(After(s, a)) < Measure(s)
  {
    match a
    case Enter(t, w, v) => QuietEnter(s, t, w, v);
    case Resume(t, w) => QuietResume(s, t, w);
  }

  /** In every reachable state some thread can enter or leave, unless all have
      left: the chain of single signals never breaks, spurious wakeups or not. */
  lemma NeverStuck(count: nat, run: seq<Step>, s: State) returns (a: Step)
    requires count > 0 && Reaches(Start(count), run, s)
    requires exists t :: 0 <= t < |s.pcs| && !s.pcs[t].Left?
    ensures Enabled(s, a) && !a.Spurious?
    ensures s.out > 0 ==> a.Resume? && After(s, a).out == s.out - 1
  {
    StartHolds(count);
    RunKeeps(Start(count), run, s);
    a := NextStep(s);
  }

  lemma NextStep(s: State) returns (a: Step)
    requires Inv(s) && exists t :: 0 <= t < |s.pcs| && !s.pcs[t].Left?
    ensures Enabled(s, a) && !a.Spurious?
    ensures s.out > 0 ==> a.Resume? && After(s, a).out == s.out - 1
  {
    NumTotal(s.pcs);
    var t0 :| 0 <= t0 < |s.pcs| && !s.pcs[t0].Left?;
    assert s.pcs[t0] in multiset(s.pcs);
    if Gathering(s) {
      assert Outside in multiset(s.pcs);
      var t :| 0 <= t < |s.pcs| && s.pcs[t] == Outside;
      var w := Sleeper(s.pcs);
      var v := None;
      if s.inside + 1 == |s.pcs| {
        v := Sleeper(Woken(s.pcs, w)[t := Left(false)]);
      }
      a := Enter(t, w, v);
    } else {
      assert Awake in multiset(s.pcs);
      var t :| 0 <= t < |s.pcs| && s.pcs[t] == Awake;
      var w := Sleeper(s.pcs[t := Left(false)]);
      a := Resume(t, w);
    }
  }

  lemma Sleeper(pcs: seq<Pc>) returns (w: Option<nat>)
    ensures Wakes(pcs, w)
  {
    if Asleep in pcs {
      var t :| 0 <= t < |pcs| && pcs[t] == Asleep;
      w := Some(t);
    } else {
      w := None;
    }
  }

  /** Without spurious wakeups a round takes at most three steps a thread, and
      where no step is left everybody has left. */
  lemma {:induction false} RoundEnds(count: nat, run: seq<Step>, s: State)
    requires count > 0 && Reaches(Start(count), run, s)
    requires forall a :: a in run ==> !a.Spurious?
    ensures |run| <= 3 * count
    ensures (forall a :: Enabled(s, a) ==> a.Spurious?) ==> forall t :: 0 <= t < |s.pcs| ==> s.pcs[t].Left?
  {
    StartHolds(count);
    NumTotal(Start(count).pcs);
    QuietRun(Start(count), run, s);
    if exists t :: 0 <= t < |s.pcs| && !s.pcs[t].Left? {
      var a := NeverStuck(count, run, s);
    }
  }

  lemma {:induction false} QuietRun(s: State, run: seq<Step>, t: State)
    requires Quiet(s) && Reaches(s, run, t) && forall a :: a in run ==> !a.Spurious?
    ensures Quiet(t) && Measure(t) + |run| <= Measure(s)
    decreases |run|
  {
    if run != [] {
      QuietStep(s, run[0]);
      QuietRun(After(s, run[0]), run[1..], t);
    }
  }

  // ---------- the class ----------

  lemma {:induction false} ReachesStep(s: State, run: seq<Step>, t: State, a: Step)
    requires Reaches(s, run, t) && Enabled(t, a)
    ensures Reaches(s, run + [a], After(t, a))
    decreases |run|
  {
    if run == [] {
      assert ([] + [a])[1..] == [];
    } else {
      ReachesStep(After(s, run[0]), run[1..], t, a);
      assert (run + [a])[1..] == run[1..] + [a];
    }
  }

  /** Does `wait` return at the end of this step? */
  predicate Returns(s: State, a: Step) {
    match a
    case Enter(_, _, _) => s.inside + 1 == |s.pcs|
    case Resume(_, _) => s.inside == 0
    case Spurious(_) => false
  }

  ghost function NumLeft(s: State): nat {
    Num(s, Left(true)) + Num(s, Left(false))
  }

  /** A step that returns from `wait` is one more return, and as many threads are
      still inside as `out_` says; any other step changes nothing of that. */
  lemma ReturnsCount(s: State, a: Step)
    requires Inv(s) && Enabled(s, a)
    ensures var t := After(s, a);
            if Returns(s, a) then NumLeft(t) == NumLeft(s) + 1 == |s.pcs| - t.out && Draining(t)
            else NumLeft(t) == NumLeft(s)
  {
    StepKeeps(s, a);
    NumTotal(s.pcs);
    NumTotal(After(s, a).pcs);
    match a
    case Enter(t, w, v) =>
      assert s.pcs[t] in multiset(s.pcs);
      if Returns(s, a) {
        LastEntryKeeps(s, t, w, v);
      }
    case Resume(t, w) =>
      assert s.pcs[t] in multiset(s.pcs);
    case Spurious(t) =>
      assert s.pcs[t] in multiset(s.pcs);
  }

  ghost predicate AllLeft(s: State) {
    forall u :: 0 <= u < |s.pcs| ==> s.pcs[u].Left?
  }

  /** Who has left, in a state with the invariant. */
  lemma LeftAtEnd(s: State)
    requires Inv(s) && |s.pcs| > 0
    ensures NumLeft(s) <= |s.pcs|
    ensures NumLeft(s) > 0 ==> Outside !in s.pcs && s.inside == 0 && s.out == |s.pcs| - NumLeft(s)
    ensures NumLeft(s) == |s.pcs| <==> AllLeft(s)
  {
    NumTotal(s.pcs);
    Present(s, Outside);
    Present(s, Asleep);
    Present(s, Awake);
    assert forall u :: 0 <= u < |s.pcs| ==> s.pcs[u] in multiset(s.pcs);
    assert forall p: Pc :: p in s.pcs ==> exists u :: 0 <= u < |s.pcs| && s.pcs[u] == p;
  }

  /** What a result of `wait` means: nobody is told anything before all have entered,
      and a thread is told that it is the last exactly when all others have left. */
  ghost predicate Meant(s: State, answer: Option<bool>) {
    answer.Some? ==>
      && Outside !in s.pcs && s.inside == 0 && NumLeft(s) == |s.pcs| - s.out
      && (answer.value <==> AllLeft(s)) && (answer.value <==> NumLeft(s) == |s.pcs|)
  }

  lemma AnswerMeans(s: State, a: Step, answer: Option<bool>)
    requires Inv(s) && Enabled(s, a) && (answer.Some? <==> Returns(s, a))
    requires answer.Some? ==> (answer.value <==> After(s, a).out == 0)
    ensures Inv(After(s, a)) && Meant(After(s, a), answer)
    ensures NumLeft(After(s, a)) == NumLeft(s) + if answer.Some? then 1 else 0
  {
    StepKeeps(s, a);
    ReturnsCount(s, a);
    LeftAtEnd(After(s, a));
  }

  /** The barrier itself.  `pcs` stands for the threads and for the condition
      variable's queue; each method is one critical section of `wait`, and its result
      is what `wait` returns, or None when the thread waits. */
  class WinBarrier {
    var count: nat
    var inside: nat      // in_
    var out: nat         // out_
    var pcs: seq<Pc>

    function View(): State
      reads this
    {
      State(inside, out, pcs)
    }

    ghost predicate Valid()
      reads this
    {
      count == |pcs| > 0 && Inv(View())
    }

    constructor (count: nat)
      ensures View() == Start(count) && this.count == count && (count > 0 ==> Valid())
    {
      this.count, inside, out := count, 0, 0;
      pcs := seq(count, i => Outside);
      new;
      if count > 0 {
        StartHolds(count);
      }
    }

    method Signal(w: Option<nat>)
      requires Wakes(pcs, w)
      modifies this`pcs
      ensures pcs == Woken(old(pcs), w)
    {
      if w.Some? {
        pcs := pcs[w.value := Awake];
      }
    }

    /** From the lock to the unlock or to the first wait. */
    method Arrive(t: nat, w: Option<nat>, v: Option<nat>) returns (answer: Option<bool>)
      requires count == |pcs| && Enabled(View(), Enter(t, w, v))
      modifies this`inside, this`out, this`pcs
      ensures View() == After(old(View()), Enter(t, w, v))
      ensures answer.Some? <==> old(Returns(View(), Enter(t, w, v)))
      ensures answer.Some? ==> (answer.value <==> out == 0)
    {
      inside := inside + 1;
      if inside == count {
        inside := 0;
        out := count;
        Signal(w);
        var last := CountDown(t, v);
        answer := Some(last);
      } else {
        pcs := pcs[t := Asleep];
        answer := None;
      }
    }

    /** From waking up, with the mutex, to the unlock or to the next wait. */
    method Continue(t: nat, w: Option<nat>) returns (answer: Option<bool>)
      requires Enabled(View(), Resume(t, w))
      modifies this`out, this`pcs
      ensures View() == After(old(View()), Resume(t, w))
      ensures answer.Some? <==> old(Returns(View(), Resume(t, w)))
      ensures answer.Some? ==> (answer.value <==> out == 0)
    {
      if inside != 0 {
        pcs := pcs[t := Asleep];
        answer := None;
      } else {
        var last := CountDown(t, w);
        answer := Some(last);
      }
    }

    /** The end of `wait`, which tells the caller whether it is the last. */
    method CountDown(t: nat, w: Option<nat>) returns (last: bool)
      requires CanLeave(View(), t, w)
      modifies this`out, this`pcs
      ensures View() == Leave(old(View()), t, w) && (last <==> out == 0)
    {
      out := out - 1;
      last := out == 0;
      pcs := pcs[t := Left(last)];
      if !last {
        Signal(w);
      }
    }

    method Step(a: Step) returns (answer: Option<bool>)
      requires count == |pcs| && Enabled(View(), a)
      modifies this`inside, this`out, this`pcs
      ensures View() == After(old(View()), a)
      ensures answer.Some? <==> old(Returns(View(), a))
      ensures answer.Some? ==> (answer.value <==> out == 0)
    {
      match a
      case Enter(t, w, v) =>
        answer := Arrive(t, w, v);
      case Resume(t, w) =>
        answer := Continue(t, w);
      case Spurious(t) =>
        pcs := pcs[t := Awake];
        answer := None;
    }

    /** A thread takes its next step, whatever it is.  A result comes from `wait` only
        after all have entered, and is true exactly when all have left; each is one
        more return. */
    method Take(a: Step) returns (answer: Option<bool>)
      requires Valid() && Enabled(View(), a)
      modifies this`inside, this`out, this`pcs
      ensures Valid() && View() == After(old(View()), a) && Meant(View(), answer)
      ensures NumLeft(View()) == old(NumLeft(View())) + if answer.Some? then 1 else 0
    {
      ghost var s := View();
      answer := Step(a);
      AnswerMeans(s, a, answer);
    }
  }

  /** A schedule without the steps that are not possible when their turn comes. */
  function Possibly(s: State, schedule: seq<Step>): seq<Step>
    decreases |schedule|
  {
    if schedule == [] then []
    else if Enabled(s, schedule[0]) then [schedule[0]] + Possibly(After(s, schedule[0]), schedule[1..])
    else Possibly(s, schedule[1..])
  }

  /** A schedule whose every step is possible in its turn is played as it is. */
  lemma {:induction false} PossiblyAll(s: State, schedule: seq<Step>, t: State)
    requires Reaches(s, schedule, t)
    ensures Possibly(s, schedule) == schedule
    decreases |schedule|
  {
    if schedule != [] {
      PossiblyAll(After(s, schedule[0]), schedule[1..], t);
      assert schedule == [schedule[0]] + schedule[1..];
    }
  }

  /** From any point on, the next step is played if it is possible then, and passed over
      if not. */
  lemma {:induction false} PossiblyNext(s: State, schedule: seq<Step>, t: State, a: Step)
    requires Reaches(s, Possibly(s, schedule), t)
    ensures Possibly(s, schedule + [a]) == Possibly(s, schedule) + if Enabled(t, a) then [a] else []
    decreases |schedule|
  {
    if schedule == [] {
      assert ([] + [a])[1..] == [];
    } else {
      assert (schedule + [a])[1..] == schedule[1..] + [a];
      var b, rest := schedule[0], Possibly(s, schedule);
      if Enabled(s, b) {
        assert rest[1..] == Possibly(After(s, b), schedule[1..]);
        PossiblyNext(After(s, b), schedule[1..], t, a);
        assert [b] + (rest[1..] + if Enabled(t, a) then [a] else []) == rest + if Enabled(t, a) then [a] else [];
      } else {
        PossiblyNext(s, schedule[1..], t, a);
      }
    }
  }

  /** Plays any schedule on a barrier for `count` threads; what is not possible when its
      turn comes is passed over, all the rest is played.  The results of `wait` are all
      false but the last of `count`; none comes before all have entered; and after the
      last the counters are 0, as `destroy` asserts.  `done` is the run the schedule
      comes to, so what holds of every run (RoundIsSafe, NeverStuck, RoundEnds) holds of
      the barrier. */
  method PlayRound(count: nat, schedule: seq<Step>) returns (b: WinBarrier, told: seq<bool>, ghost done: seq<Step>)
    requires count > 0
    ensures fresh(b) && done == Possibly(Start(count), schedule) && Reaches(Start(count), done, b.View())
    ensures |told| <= count && forall i :: 0 <= i < |told| ==> (told[i] <==> i == count - 1)
    ensures told != [] ==> Outside !in b.pcs && b.inside == 0 && b.out == count - |told|
    ensures |told| == count <==> AllLeft(b.View())
  {
    b := new WinBarrier(count);
    told, done := [], [];
    NumTotal(b.pcs);
    StartHolds(count);
    for i := 0 to |schedule|
      invariant fresh(b) && Played(b, count, told, done)
      invariant done + Possibly(b.View(), schedule[i..]) == Possibly(Start(count), schedule)
    {
      PossiblyStep(done, b.View(), schedule, i);
      if Enabled(b.View(), schedule[i]) {
        told, done := PlayStep(b, schedule[i], count, told, done);
      }
    }
    LeftAtEnd(b.View());
  }

  lemma PossiblyStep(done: seq<Step>, s: State, schedule: seq<Step>, i: nat)
    requires i < |schedule|
    ensures var a := schedule[i];
            done + Possibly(s, schedule[i..]) ==
            if Enabled(s, a) then done + [a] + Possibly(After(s, a), schedule[i + 1..])
            else done + Possibly(s, schedule[i + 1..])
  {
    assert schedule[i..][1..] == schedule[i + 1..];
    if Enabled(s, schedule[i]) {
      var rest := Possibly(After(s, schedule[i]), schedule[i + 1..]);
      assert done + ([schedule[i]] + rest) == done + [schedule[i]] + rest;
    }
  }

  ghost predicate Played(b: WinBarrier, count: nat, told: seq<bool>, done: seq<Step>)
    reads b
  {
    && b.Valid() && b.count == count && Reaches(Start(count), done, b.View())
    && Tally(told, count, NumLeft(b.View()))
  }

  /** The results of the first `n` of `count` waits to return. */
  predicate Tally(told: seq<bool>, count: nat, n: nat) {
    |told| == n && forall i :: 0 <= i < |told| ==> (told[i] <==> i == count - 1)
  }

  lemma TallyStep(told: seq<bool>, count: nat, n: nat, last: bool)
    requires Tally(told, count, n) && (last <==> n + 1 == count)
    ensures Tally(told + [last], count, n + 1)
  {
  }

  method PlayStep(b: WinBarrier, a: Step, count: nat, told: seq<bool>, ghost done: seq<Step>)
    returns (told': seq<bool>, ghost done': seq<Step>)
    requires Played(b, count, told, done) && Enabled(b.View(), a)
    modifies b`inside, b`out, b`pcs
    ensures Played(b, count, told', done') && done' == done + [a] && b.View() == After(old(b.View()), a)
  {
    ReachesStep(Start(count), done, b.View(), a);
    var answer := b.Take(a);
    done' := done + [a];
    told' := told;
    if answer.Some? {
      TallyStep(told, count, |told|, answer.value);
      told' := told + [answer.value];
    }
  }
}
