/** posix_tcp_ostream.cpp: what a schedule of appends, calls and socket answers does to
    the indices and the flags of an output stream, and to the record of its sends.
    The bytes themselves are in OutQueue, the code in Ostream. */
module OutSchedule {
  import opened OutQueue
  import opened Wrappers

  /** `flags_` of the session, one field a bit. */
  datatype Flags = Flags(closed: bool, shutdown: bool, closing: bool, error: bool, eof: bool, reset: bool) {
    predicate Stopping()
      ensures Stopping() <==> shutdown || closed || closing
    {
      shutdown || closed || closing
    }
  }

  datatype Errno = EINTR | EAGAIN | ECONNRESET | EPIPE | OtherError

  /** What the socket answers: it takes up to `room` bytes of the window, or fails. */
  datatype Answer = Takes(room: nat) | Fails(e: Errno) {
    predicate Continues() {
      Takes? || e == EINTR
    }
  }

  /** One round of `on_write` as its surroundings see it: what other threads do
      before it and in its midst, and how the socket answers. */
  datatype Turn = Turn(before: seq<byte>, closing: bool, late: seq<byte>, answer: Answer) {
    /** Nothing comes in the midst of the round, and the socket takes all or nothing. */
    predicate Calm() {
      late == [] && (answer.Fails? || answer.room == 0 || answer.room >= OUT_BUFFER_SIZE)
    }
  }

  predicate CalmTurns(turns: seq<Turn>) {
    forall i :: 0 <= i < |turns| ==> turns[i].Calm()
  }

  /** What the stream is used for: `async_write` of one buffer or several, and
      `on_write` with what surrounds its rounds. */
  datatype Use = Write(data: seq<byte>) | WriteAll(bufs: seq<seq<byte>>) | Event(turns: seq<Turn>) {
    predicate Calm() {
      Event? ==> CalmTurns(turns)
    }
  }

  predicate CalmUses(uses: seq<Use>) {
    forall i :: 0 <= i < |uses| ==> uses[i].Calm()
  }

  function Min(a: nat, b: nat): nat {
    if a < b then a else b
  }

  function Joined(bufs: seq<seq<byte>>): (r: seq<byte>)
    ensures |bufs| == 0 ==> r == []
    ensures |bufs| == 1 ==> r == bufs[0]
  {
    if bufs == [] then [] else Joined(bufs[..|bufs| - 1]) + bufs[|bufs| - 1]
  }

  // ---------- the account of a stream ----------

  /** `accepted` is what was appended, `takes` are the sends. */
  datatype Account = Account(
    rindex: nat, windex: nat, complete: bool, flags: Flags, accepted: seq<byte>, takes: seq<Take>)

  predicate Indices(rindex: nat, windex: nat) {
    rindex < OUT_BUFFER_SIZE && (rindex < windex || rindex == windex == 0)
  }

  /** A closed stream has been cleared: its indices mean nothing. */
  predicate Ready(a: Account) {
    !a.flags.closed ==> Indices(a.rindex, a.windex) && (a.complete ==> a.windex > 0)
  }

  function AfterAppend(a: Account, data: seq<byte>): Account {
    a.(windex := a.windex + |data|, accepted := a.accepted + data)
  }

  /** What others do before a round. */
  function Preceded(a: Account, turn: Turn): (b: Account)
    requires Ready(a)
    ensures Ready(b)
  {
    var b := if turn.closing then a.(flags := a.flags.(closing := true)) else a;
    if b.flags.closed then b else AfterAppend(b, turn.before)
  }

  /** Does a round get past its tests? */
  predicate Passes(a: Account) {
    !a.flags.Stopping() && (a.windex != 0 || a.complete)
  }

  /** The flags after an answer. */
  function Flagged(flags: Flags, answer: Answer): Flags {
    match answer
    case Takes(_) => flags.(error := false)
    case Fails(e) =>
      if e == EINTR || e == EAGAIN then flags
      else flags.(error := true, reset := flags.reset || e == ECONNRESET || e == EPIPE)
  }

  /** A send that took `taken` bytes of a window of `offered`; a whole window is
      committed. */
  function AfterTaking(a: Account, offered: nat, rewinds: bool, taken: nat): Account
    requires offered <= a.windex
  {
    var b := a.(takes := a.takes + [Take(a.rindex, offered, taken, rewinds)]);
    if taken < offered then b
    else if rewinds then b.(rindex := 0, windex := b.windex - offered)
    else b.(rindex := b.rindex + offered)
  }

  /** The end of a round, with the answer to the send of a window of `offered`. */
  function AfterAnswer(a: Account, offered: nat, rewinds: bool, answer: Answer): Account
    requires offered <= a.windex
  {
    var b := a.(complete := answer == Fails(EAGAIN), flags := Flagged(a.flags, answer));
    if answer.Fails? then b else AfterTaking(b, offered, rewinds, Min(answer.room, offered))
  }

  /** A round past its tests: the window is measured, `late` is appended, and the
      socket answers. */
  function Rounded(a: Account, late: seq<byte>, answer: Answer): (b: Account)
    requires Indices(a.rindex, a.windex) && a.windex > 0
    ensures Ready(b) && b.flags.closed == a.flags.closed
  {
    var harmless := late == [] || a.windex >= OUT_BUFFER_SIZE;
    AfterAnswer(AfterAppend(a, late), Offer(a.rindex, a.windex), harmless, answer)
  }

  predicate GoesOn(a: Account, turn: Turn)
    requires Ready(a)
  {
    Passes(Preceded(a, turn)) && turn.answer.Continues()
  }

  function AfterTurn(a: Account, turn: Turn): (b: Account)
    requires Ready(a)
    ensures Ready(b) && b.flags.closed == a.flags.closed
  {
    var b := Preceded(a, turn);
    if Passes(b) then Rounded(b, turn.late, turn.answer) else b
  }

  /** `on_write`: turns until one does not go on. */
  function AfterTurns(a: Account, turns: seq<Turn>): (b: Account)
    requires Ready(a)
    ensures Ready(b) && b.flags.closed == a.flags.closed
    decreases |turns|
  {
    if turns == [] then a
    else if GoesOn(a, turns[0]) then AfterTurns(AfterTurn(a, turns[0]), turns[1..])
    else AfterTurn(a, turns[0])
  }

  /** Did the code end the loop, or only the schedule? */
  predicate Ends(a: Account, turns: seq<Turn>)
    requires Ready(a)
    decreases |turns|
  {
    turns != [] && (GoesOn(a, turns[0]) ==> Ends(AfterTurn(a, turns[0]), turns[1..]))
  }

  function AfterUse(a: Account, use: Use): (b: Account)
    requires Ready(a)
    ensures Ready(b) && b.flags.closed == a.flags.closed
  {
    match use
    case Write(data) => AfterAppend(a, data)
    case WriteAll(bufs) => AfterAppend(a, Joined(bufs))
    case Event(turns) => AfterTurns(a, turns)
  }

  function AfterUses(a: Account, uses: seq<Use>): (b: Account)
    requires Ready(a)
    ensures Ready(b) && b.flags.closed == a.flags.closed
    decreases |uses|
  {
    if uses == [] then a else AfterUses(AfterUse(a, uses[0]), uses[1..])
  }

  // ---------- what is accepted ----------

  /** The turns played. */
  function Played(a: Account, turns: seq<Turn>): (n: nat)
    requires Ready(a)
    ensures n <= |turns| && (turns != [] ==> n > 0)
    decreases |turns|
  {
    if turns == [] then 0
    else if GoesOn(a, turns[0]) then 1 + Played(AfterTurn(a, turns[0]), turns[1..])
    else 1
  }

  /** Did the last of them get past its tests? */
  predicate Reached(a: Account, turns: seq<Turn>)
    requires Ready(a)
    decreases |turns|
  {
    if turns == [] then true
    else if GoesOn(a, turns[0]) then Reached(AfterTurn(a, turns[0]), turns[1..])
    else Passes(Preceded(a, turns[0]))
  }

  /** What other threads append in the first `n` turns: before each, and in the midst of
      each but, unless it was `reached`, the last. */
  function Arrived(turns: seq<Turn>, n: nat, reached: bool): seq<byte>
    requires n <= |turns|
  {
    if n == 0 then []
    else turns[0].before + (if n > 1 || reached then turns[0].late else []) + Arrived(turns[1..], n - 1, reached)
  }

  lemma TurnAccepts(a: Account, turn: Turn)
    requires Ready(a) && !a.flags.closed
    ensures AfterTurn(a, turn).accepted ==
            a.accepted + (turn.before + if Passes(Preceded(a, turn)) then turn.late else [])
  {
    assert a.accepted + turn.before + turn.late == a.accepted + (turn.before + turn.late);
  }

  lemma Regroup(a: seq<byte>, b: seq<byte>, c: seq<byte>)
    ensures a + (b + c) == a + b + c && a + [] == a
  {
  }

  /** Every byte that other threads append in the turns played is accepted, in order,
      and nothing else. */
  lemma {:induction false} AcceptsArrivals(a: Account, turns: seq<Turn>)
    requires Ready(a) && !a.flags.closed
    ensures AfterTurns(a, turns).accepted == a.accepted + Arrived(turns, Played(a, turns), Reached(a, turns))
    decreases |turns|
  {
    if turns != [] {
      var turn := turns[0];
      TurnAccepts(a, turn);
      var first := turn.before + if Passes(Preceded(a, turn)) then turn.late else [];
      if GoesOn(a, turn) {
        var b, n := AfterTurn(a, turn), Played(a, turns);
        AcceptsArrivals(b, turns[1..]);
        Regroup(a.accepted, first, Arrived(turns[1..], n - 1, Reached(a, turns)));
      } else {
        Regroup(first, [], []);
      }
    }
  }

  /** What one use brings: the buffers written, or what arrives during the event. */
  function Brought(a: Account, use: Use): seq<byte>
    requires Ready(a)
  {
    match use
    case Write(data) => data
    case WriteAll(bufs) => Joined(bufs)
    case Event(turns) => Arrived(turns, Played(a, turns), Reached(a, turns))
  }

  function Given(a: Account, uses: seq<Use>): seq<byte>
    requires Ready(a)
    decreases |uses|
  {
    if uses == [] then [] else Brought(a, uses[0]) + Given(AfterUse(a, uses[0]), uses[1..])
  }

  lemma UseAccepts(a: Account, use: Use)
    requires Ready(a) && !a.flags.closed
    ensures AfterUse(a, use).accepted == a.accepted + Brought(a, use)
  {
    if use.Event? {
      AcceptsArrivals(a, use.turns);
    }
  }

  lemma {:induction false} AcceptsGiven(a: Account, uses: seq<Use>)
    requires Ready(a) && !a.flags.closed
    ensures AfterUses(a, uses).accepted == a.accepted + Given(a, uses)
    decreases |uses|
  {
    if uses != [] {
      var b := AfterUse(a, uses[0]);
      UseAccepts(a, uses[0]);
      AcceptsGiven(b, uses[1..]);
      Regroup(a.accepted, Brought(a, uses[0]), Given(b, uses[1..]));
    }
  }

  // ---------- what the answers leave behind ----------

  /** The turns that got past their tests: all that were played, or all but the last. */
  function Past(a: Account, turns: seq<Turn>): (n: nat)
    requires Ready(a)
    ensures n <= Played(a, turns) <= n + 1
  {
    if turns == [] then 0 else if Reached(a, turns) then Played(a, turns) else Played(a, turns) - 1
  }

  lemma PastStep(a: Account, turns: seq<Turn>)
    requires Ready(a) && turns != [] && GoesOn(a, turns[0])
    ensures Past(a, turns) == 1 + Past(AfterTurn(a, turns[0]), turns[1..])
    ensures Played(a, turns) == 1 + Played(AfterTurn(a, turns[0]), turns[1..])
  {
  }

  /** Every turn but the last one played was answered by taking bytes or by EINTR, and
      the call ends exactly when the last one played did not get past its tests or was
      answered otherwise. */
  lemma {:induction false} EndsExactly(a: Account, turns: seq<Turn>)
    requires Ready(a)
    ensures forall i :: 0 <= i < Played(a, turns) - 1 ==>
              turns[i].answer.Takes? || turns[i].answer == Fails(EINTR)
    ensures Ends(a, turns) <==>
            var p := Played(a, turns);
            p > Past(a, turns) || (p > 0 && turns[p - 1].answer.Fails? && turns[p - 1].answer.e != EINTR)
    ensures !Ends(a, turns) ==> Played(a, turns) == |turns|
    decreases |turns|
  {
    if turns != [] && GoesOn(a, turns[0]) {
      PastStep(a, turns);
      EndsExactly(AfterTurn(a, turns[0]), turns[1..]);
      forall i | 0 <= i < Played(a, turns) - 1
        ensures turns[i].answer.Takes? || turns[i].answer == Fails(EINTR)
      {
        if i > 0 {
          assert turns[i] == turns[1..][i - 1];
        }
      }
    }
  }

  /** `complete_` is set exactly when the last round past its tests was answered EAGAIN;
      if there was none it is as before. */
  lemma {:induction false} CompleteExactly(a: Account, turns: seq<Turn>)
    requires Ready(a)
    ensures AfterTurns(a, turns).complete ==
            var n := Past(a, turns);
            if n == 0 then a.complete else turns[n - 1].answer == Fails(EAGAIN)
    decreases |turns|
  {
    if turns != [] && GoesOn(a, turns[0]) {
      PastStep(a, turns);
      CompleteExactly(AfterTurn(a, turns[0]), turns[1..]);
    }
  }

  predicate Hard(answer: Answer) {
    answer.Fails? && answer.e != EINTR && answer.e != EAGAIN
  }

  predicate Resets(answer: Answer) {
    answer == Fails(ECONNRESET) || answer == Fails(EPIPE)
  }

  /** Among the first `n` turns: did the socket take bytes, was it reset, was a close
      called for? */
  predicate AnyTook(turns: seq<Turn>, n: nat) {
    exists i :: 0 <= i < n && i < |turns| && turns[i].answer.Takes?
  }

  predicate AnyReset(turns: seq<Turn>, n: nat) {
    exists i :: 0 <= i < n && i < |turns| && Resets(turns[i].answer)
  }

  predicate AnyClosing(turns: seq<Turn>, n: nat) {
    exists i :: 0 <= i < n && i < |turns| && turns[i].closing
  }

  lemma AnyStep(turns: seq<Turn>, n: nat)
    requires 0 < n <= |turns|
    ensures AnyTook(turns, n) <==> turns[0].answer.Takes? || AnyTook(turns[1..], n - 1)
    ensures AnyReset(turns, n) <==> Resets(turns[0].answer) || AnyReset(turns[1..], n - 1)
    ensures AnyClosing(turns, n) <==> turns[0].closing || AnyClosing(turns[1..], n - 1)
  {
    assert forall i :: 1 <= i < |turns| ==> turns[i] == turns[1..][i - 1];
    assert forall i :: 0 <= i < |turns| - 1 ==> turns[1..][i] == turns[i + 1];
  }

  /** The flags after one turn. */
  lemma TurnFlags(a: Account, turn: Turn)
    requires Ready(a)
    ensures var f, g, past := a.flags, AfterTurn(a, turn).flags, Passes(Preceded(a, turn));
            && g.error == ((past && Hard(turn.answer)) || (f.error && !(past && turn.answer.Takes?)))
            && g.reset == (f.reset || (past && Resets(turn.answer)))
            && g.closing == (f.closing || turn.closing)
            && g.closed == f.closed && g.shutdown == f.shutdown && g.eof == f.eof
  {
  }

  /** `error` is set by a hard failure, which ends the call, and cleared by a success. */
  lemma {:induction false} ErrorExactly(a: Account, turns: seq<Turn>)
    requires Ready(a)
    ensures var n := Past(a, turns);
            AfterTurns(a, turns).flags.error <==>
            (n > 0 && Hard(turns[n - 1].answer)) || (a.flags.error && !AnyTook(turns, n))
    decreases |turns|
  {
    if turns != [] {
      TurnFlags(a, turns[0]);
      if GoesOn(a, turns[0]) {
        PastStep(a, turns);
        AnyStep(turns, Past(a, turns));
        ErrorExactly(AfterTurn(a, turns[0]), turns[1..]);
      } else if Past(a, turns) > 0 {
        AnyStep(turns, 1);
      }
    }
  }

  /** `reset` is added exactly by ECONNRESET or EPIPE. */
  lemma {:induction false} ResetExactly(a: Account, turns: seq<Turn>)
    requires Ready(a)
    ensures AfterTurns(a, turns).flags.reset <==> a.flags.reset || AnyReset(turns, Past(a, turns))
    decreases |turns|
  {
    if turns != [] {
      TurnFlags(a, turns[0]);
      if GoesOn(a, turns[0]) {
        PastStep(a, turns);
        AnyStep(turns, Past(a, turns));
        ResetExactly(AfterTurn(a, turns[0]), turns[1..]);
      } else if Past(a, turns) > 0 {
        AnyStep(turns, 1);
      }
    }
  }

  /** `closing` is added exactly by a close; the other flags stay. */
  lemma {:induction false} ClosingExactly(a: Account, turns: seq<Turn>)
    requires Ready(a)
    ensures var f, g := a.flags, AfterTurns(a, turns).flags;
            && (g.closing <==> f.closing || AnyClosing(turns, Played(a, turns)))
            && g.closed == f.closed && g.shutdown == f.shutdown && g.eof == f.eof
    decreases |turns|
  {
    if turns != [] {
      TurnFlags(a, turns[0]);
      AnyStep(turns, Played(a, turns));
      if GoesOn(a, turns[0]) {
        PastStep(a, turns);
        ClosingExactly(AfterTurn(a, turns[0]), turns[1..]);
      }
    }
  }

  /** How many of the first `n` turns took bytes or might have. */
  function Taking(turns: seq<Turn>, n: nat): nat
    requires n <= |turns|
  {
    if n == 0 then 0 else (if turns[0].answer.Takes? then 1 else 0) + Taking(turns[1..], n - 1)
  }

  /** A send is recorded for every round past its tests whose send did not fail, and
      for no other; earlier records stay. */
  lemma {:induction false} TakesExactly(a: Account, turns: seq<Turn>)
    requires Ready(a)
    ensures |AfterTurns(a, turns).takes| == |a.takes| + Taking(turns, Past(a, turns))
    ensures a.takes <= AfterTurns(a, turns).takes
    decreases |turns|
  {
    if turns != [] {
      var b := AfterTurn(a, turns[0]);
      assert a.takes <= b.takes;
      if GoesOn(a, turns[0]) {
        PastStep(a, turns);
        TakesExactly(b, turns[1..]);
      }
    }
  }

  /** The answer to the last round past its tests, if there was one. */
  function LastAnswer(a: Account, turns: seq<Turn>): Option<Answer>
    requires Ready(a)
  {
    if Past(a, turns) == 0 then None else Some(turns[Past(a, turns) - 1].answer)
  }

  function LastAnswerOf(a: Account, uses: seq<Use>): Option<Answer>
    requires Ready(a)
    decreases |uses|
  {
    if uses == [] then None
    else
      var later := LastAnswerOf(AfterUse(a, uses[0]), uses[1..]);
      if later.Some? then later else if uses[0].Event? then LastAnswer(a, uses[0].turns) else None
  }

  /** The same over any mix of calls: appends do not touch `complete_`. */
  lemma {:induction false} CompleteAfterUses(a: Account, uses: seq<Use>)
    requires Ready(a)
    ensures AfterUses(a, uses).complete ==
            match LastAnswerOf(a, uses)
            case None => a.complete
            case Some(answer) => answer == Fails(EAGAIN)
    decreases |uses|
  {
    if uses != [] {
      if uses[0].Event? {
        CompleteExactly(a, uses[0].turns);
      }
      CompleteAfterUses(AfterUse(a, uses[0]), uses[1..]);
    }
  }

  // ---------- calm schedules ----------

  /** A send of a calm round. */
  predicate Plain(t: Take) {
    if t.Whole() then t.rewinds else t.taken == 0
  }

  ghost predicate AllPlain(takes: seq<Take>) {
    forall i :: 0 <= i < |takes| ==> Plain(takes[i])
  }

  lemma PlainIsOrderly(takes: seq<Take>)
    requires AllPlain(takes)
    ensures Orderly(takes)
  {
    assert forall i :: 0 <= i < |takes| ==> Plain(takes[i]);
  }

  lemma CalmTurn(a: Account, turn: Turn)
    requires Ready(a) && turn.Calm() && AllPlain(a.takes)
    ensures AllPlain(AfterTurn(a, turn).takes)
  {
  }

  lemma {:induction false} CalmTurnsArePlain(a: Account, turns: seq<Turn>)
    requires Ready(a) && CalmTurns(turns) && AllPlain(a.takes)
    ensures AllPlain(AfterTurns(a, turns).takes)
    decreases |turns|
  {
    if turns != [] {
      CalmTurn(a, turns[0]);
      if GoesOn(a, turns[0]) {
        CalmTurnsArePlain(AfterTurn(a, turns[0]), turns[1..]);
      }
    }
  }

  lemma {:induction false} CalmUsesArePlain(a: Account, uses: seq<Use>)
    requires Ready(a) && CalmUses(uses) && AllPlain(a.takes)
    ensures AllPlain(AfterUses(a, uses).takes)
    decreases |uses|
  {
    if uses != [] {
      if uses[0].Event? {
        assert uses[0].Calm();
        CalmTurnsArePlain(a, uses[0].turns);
      }
      CalmUsesArePlain(AfterUse(a, uses[0]), uses[1..]);
    }
  }

  /** Turns in which nothing comes and the socket takes everything. */
  predicate Clear(turns: seq<Turn>) {
    forall i :: 0 <= i < |turns| ==>
      turns[i].before == [] && !turns[i].closing && turns[i].Calm()
      && turns[i].answer.Takes? && turns[i].answer.room > 0
  }

  /** As many such turns as there are chunks send everything, from read index 0. */
  lemma {:induction false} ClearTurnsDrain(a: Account, turns: seq<Turn>)
    requires Ready(a) && !a.flags.Stopping() && a.rindex == 0 && Clear(turns)
    requires |turns| * OUT_BUFFER_SIZE >= a.windex
    ensures AfterTurns(a, turns).windex == 0 && AfterTurns(a, turns).accepted == a.accepted
    ensures AfterTurns(a, turns).rindex == 0 && !AfterTurns(a, turns).flags.Stopping()
    decreases |turns|
  {
    if turns != [] {
      assert a.accepted + [] == a.accepted;
      if GoesOn(a, turns[0]) {
        ClearTurnsDrain(AfterTurn(a, turns[0]), turns[1..]);
      }
    }
  }
}
