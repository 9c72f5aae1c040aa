/** posix_tcp_ostream.cpp: the output side of a TCP session, with appends from any
    thread at any time and a socket that takes whatever part of a window it likes.
    Out-of-band bytes are not part of this model. */
module Ostream {
  import opened OutQueue
  import opened OutSchedule
  import opened Wrappers

  /** What `on_complete` is called with, if it is called. */
  datatype Report = Silent | Completed(size: nat) | Failed(e: Errno)

  lemma JoinedAppend(a: Account, bufs: seq<seq<byte>>, k: nat)
    requires k < |bufs|
    ensures AfterAppend(AfterAppend(a, Joined(bufs[..k])), bufs[k]) == AfterAppend(a, Joined(bufs[..k + 1]))
  {
    assert bufs[..k + 1][..k] == bufs[..k];
    assert a.accepted + Joined(bufs[..k]) + bufs[k] == a.accepted + (Joined(bufs[..k]) + bufs[k]);
  }

  ghost function Contents(bufs: seq<array<byte>>): (s: seq<seq<byte>>)
    reads bufs
    ensures |s| == |bufs| && forall i :: 0 <= i < |s| ==> s[i] == bufs[i][..]
  {
    seq(|bufs|, i requires 0 <= i < |bufs| reads bufs => bufs[i][..])
  }

  lemma ContentsTail(bufs: seq<array<byte>>)
    requires bufs != []
    ensures Contents(bufs[1..]) == Contents(bufs)[1..]
  {
  }

  class OutStream {
    var buffers: seq<array<byte>>
    var rindex: nat
    var windex: nat
    var nextBuffer: array?<byte>
    var complete: bool
    var flags: Flags
    ghost var sent: seq<byte>           // every byte the socket took
    ghost var accepted: seq<byte>       // every byte appended
    ghost var takes: seq<Take>          // the sends so far
    ghost var owned: set<array<byte>>   // every chunk allocated so far

    ghost predicate Allocated()
      reads this`buffers, this`owned
    {
      && |buffers| > 0
      && (forall i :: 0 <= i < |buffers| ==> buffers[i] in owned && buffers[i].Length == OUT_BUFFER_SIZE)
      && (forall i, j :: 0 <= i < j < |buffers| ==> buffers[i] != buffers[j])
    }

    ghost function View(): Queue
      reads this`buffers, this`rindex, this`windex, buffers
    {
      Queue(Contents(buffers), rindex, windex)
    }

    /** The state outside the locked sections: the books are right, and `next_buffer_`
        tells whether anything is to be sent. */
    ghost predicate Valid()
      reads this`buffers, this`rindex, this`windex, this`owned, owned
      reads this`nextBuffer, this`complete, this`sent, this`accepted, this`takes
    {
      && Allocated() && Ledger(View(), sent, accepted, takes)
      && nextBuffer == (if windex == 0 then null else buffers[0])
      && (complete ==> windex > 0)
    }

    /** What was sent, then what is queued, is what was appended. */
    ghost predicate InOrder()
      reads this`buffers, this`rindex, this`windex, this`owned, owned
      reads this`sent, this`accepted
    {
      Allocated() && Intact(View(), sent, accepted)
    }

    /** Whatever has been done to the stream, it is in order if and only if its sends
        were orderly. */
    lemma InOrderExactly()
      requires Valid()
      ensures InOrder() <==> Orderly(takes)
      ensures Orderly(takes) ==> sent <= accepted
    {
      LedgerExact(View(), sent, accepted, takes);
    }

    ghost function Books(): Account
      reads this
    {
      Account(rindex, windex, complete, flags, accepted, takes)
    }

    twostate predicate OnlyFreshChunks()
      reads this`owned
    {
      old(owned) <= owned && forall x :: x in owned && x !in old(owned) ==> fresh(x)
    }

    constructor ()
      ensures Valid() && sent == accepted == [] && takes == [] && !complete && fresh(owned)
      ensures flags == Flags(false, false, false, false, false, false)
    {
      rindex, windex := 0, 0;
      nextBuffer, complete := null, false;
      flags := Flags(false, false, false, false, false, false);
      buffers, owned := [], {};
      sent, accepted, takes := [], [], [];
      new;
      var chunk := new byte[OUT_BUFFER_SIZE];
      buffers, owned := buffers + [chunk], {chunk};
    }

    // ---------- appending ----------

    /** The loop that makes room for `size` more bytes. */
    method Reserve(size: nat)
      requires Allocated()
      modifies this`buffers, this`owned
      ensures Allocated() && OnlyFreshChunks()
      ensures old(buffers) <= buffers && windex + size <= OUT_BUFFER_SIZE * |buffers|
      ensures |buffers| == |old(buffers)| || (windex + size > 0 && |buffers| == Needed(windex + size))
    {
      while windex + size > OUT_BUFFER_SIZE * |buffers|
        invariant Allocated() && OnlyFreshChunks()
        invariant old(buffers) <= buffers
        invariant |buffers| > |old(buffers)| ==> OUT_BUFFER_SIZE * (|buffers| - 1) < windex + size
        decreases windex + size - OUT_BUFFER_SIZE * |buffers|
      {
        var chunk := new byte[OUT_BUFFER_SIZE];
        buffers, owned := buffers + [chunk], owned + {chunk};
      }
    }

    function ByteAt(i: nat): byte
      requires Allocated() && i < OUT_BUFFER_SIZE * |buffers|
      reads this`buffers, this`owned, owned
    {
      buffers[i / OUT_BUFFER_SIZE][i % OUT_BUFFER_SIZE]
    }

    /** `memcpy` into one chunk. */
    method Copy(which: nat, index: nat, data: seq<byte>)
      requires Allocated() && which < |buffers| && index + |data| <= OUT_BUFFER_SIZE
      modifies owned
      ensures var at := which * OUT_BUFFER_SIZE + index;
              forall i :: 0 <= i < OUT_BUFFER_SIZE * |buffers| ==>
                ByteAt(i) == if at <= i < at + |data| then data[i - at] else old(ByteAt(i))
    {
      var chunk := buffers[which];
      forall j | 0 <= j < |data| {
        chunk[index + j] := data[j];
      }
    }

    /** The do-while loop of `append_buffer`: fills chunk after chunk. */
    method Fill(data: seq<byte>)
      requires Allocated() && data != [] && windex + |data| <= OUT_BUFFER_SIZE * |buffers|
      modifies this`windex, owned
      ensures windex == old(windex) + |data|
      ensures forall i :: 0 <= i < old(windex) ==> ByteAt(i) == old(ByteAt(i))
      ensures forall i :: old(windex) <= i < windex ==> ByteAt(i) == data[i - old(windex)]
    {
      var size := |data|;
      var which := windex / OUT_BUFFER_SIZE;
      var newWindex := windex + size;
      var begin := 0;
      ghost var from := windex;
      while true
        invariant begin < size && windex == from + begin && which == windex / OUT_BUFFER_SIZE
        invariant forall i :: 0 <= i < from ==> ByteAt(i) == old(ByteAt(i))
        invariant forall i :: from <= i < windex ==> ByteAt(i) == data[i - from]
        decreases size - begin
      {
        var index := windex % OUT_BUFFER_SIZE;
        var writeable := if size - begin < OUT_BUFFER_SIZE - index then size - begin else OUT_BUFFER_SIZE - index;
        Copy(which, index, data[begin..begin + writeable]);
        windex := windex + writeable;
        if windex >= newWindex {
          break;
        }
        which := which + 1;
        begin := begin + writeable;
      }
    }

    /** `append_buffer`: stores `data` behind what is there, in as many chunks as that
        takes. */
    method AppendBuffer(data: seq<byte>)
      requires Valid()
      modifies this`buffers, this`windex, this`nextBuffer, this`accepted, this`owned, owned
      ensures Valid() && Books() == AfterAppend(old(Books()), data) && OnlyFreshChunks()
      ensures Appended(old(View()), View(), data)
    {
      ghost var q := View();
      if |data| > 0 {
        Store(data);
      }
      LedgerAfterAppend(q, sent, accepted, takes, View(), data);
      accepted := accepted + data;
    }

    method Store(data: seq<byte>)
      requires Allocated() && Possible(View()) && data != []
      modifies this`buffers, this`windex, this`nextBuffer, this`owned, owned
      ensures Allocated() && OnlyFreshChunks()
      ensures buffers[0] == old(buffers[0])
      ensures nextBuffer == if old(nextBuffer) == null then buffers[0] else old(nextBuffer)
      ensures Appended(old(View()), View(), data)
    {
      Reserve(|data|);
      Fill(data);
      StoredIsAppended(data);
      if nextBuffer == null {
        nextBuffer := buffers[0];
      }
    }

    lemma AtIsByteAt(i: nat)
      requires Allocated() && i < OUT_BUFFER_SIZE * |buffers|
      ensures At(View().chunks, i) == ByteAt(i)
    {
    }

    twostate lemma AtWasByteAt(i: nat)
      requires old(Allocated()) && i < OUT_BUFFER_SIZE * |old(buffers)|
      ensures At(old(View()).chunks, i) == old(ByteAt(i))
    {
    }

    twostate lemma StoredIsAppended(data: seq<byte>)
      requires old(Allocated()) && Allocated() && data != [] && old(Possible(View()))
      requires old(buffers) <= buffers && rindex == old(rindex) && windex == old(windex) + |data|
      requires windex <= OUT_BUFFER_SIZE * |buffers|
      requires |buffers| == |old(buffers)| || |buffers| == Needed(windex)
      requires forall i :: 0 <= i < old(windex) && i < OUT_BUFFER_SIZE * |old(buffers)| ==> ByteAt(i) == old(ByteAt(i))
      requires forall i :: old(windex) <= i < windex ==> ByteAt(i) == data[i - old(windex)]
      ensures Appended(old(View()), View(), data)
    {
      ghost var q, q' := old(View()), View();
      forall i | 0 <= i < q.windex && i < OUT_BUFFER_SIZE * |q.chunks|
        ensures At(q'.chunks, i) == At(q.chunks, i)
      {
        AtIsByteAt(i);
        AtWasByteAt(i);
      }
      forall i | q.windex <= i < q'.windex
        ensures At(q'.chunks, i) == data[i - q.windex]
      {
        AtIsByteAt(i);
      }
    }

    /** `async_write` of one buffer; true when `on_write` is posted to the loop. */
    method AsyncWrite(data: seq<byte>) returns (post: bool)
      requires Valid()
      modifies this`buffers, this`windex, this`nextBuffer, this`accepted, this`owned, owned
      ensures Valid() && Books() == AfterAppend(old(Books()), data) && OnlyFreshChunks()
      ensures post <==> !complete
    {
      AppendBuffer(data);
      post := !complete;
    }

    /** `async_write` of several buffers: all of them, in order. */
    method AsyncWriteAll(bufs: seq<seq<byte>>) returns (done: nat, post: bool)
      requires Valid()
      modifies this`buffers, this`windex, this`nextBuffer, this`accepted, this`owned, owned
      ensures Valid() && Books() == AfterAppend(old(Books()), Joined(bufs)) && OnlyFreshChunks()
      ensures done == |bufs| && (post <==> !complete)
    {
      done := 0;
      ghost var start := Books();
      while done < |bufs|
        invariant done <= |bufs| && Valid() && OnlyFreshChunks()
        invariant Books() == AfterAppend(start, Joined(bufs[..done]))
      {
        JoinedAppend(start, bufs, done);
        AppendBuffer(bufs[done]);
        done := done + 1;
      }
      assert bufs[..done] == bufs;
      post := !complete;
    }

    // ---------- writing ----------

    /** The flags that stop `on_write` before any send. */
    predicate Stopped()
      reads this`flags
    {
      flags.Stopping()
    }

    predicate Idle()
      reads this`nextBuffer, this`complete
    {
      nextBuffer == null && !complete
    }

    /** The locked section after a complete send. */
    method Commit(size: nat)
      requires Allocated() && 0 < size <= windex
      modifies this`buffers, this`rindex, this`windex, this`nextBuffer
      ensures Allocated() && View() == Committed(old(View()), size)
      ensures nextBuffer == if !Rewinds(old(View()), size) then old(nextBuffer)
                            else if windex == 0 then null else buffers[0]
      ensures !Rewinds(old(View()), size) ==> buffers == old(buffers)
    {
      rindex := rindex + size;
      if rindex == OUT_BUFFER_SIZE || rindex == windex {
        rindex, windex := 0, windex - size;
        if |buffers| > 1 {
          DropFront();
        }
        assert View() == Committed(old(View()), size);
        nextBuffer := if windex - rindex != 0 then buffers[0] else null;
      }
    }

    /** `erase` of the front chunk. */
    method DropFront()
      requires Allocated() && |buffers| > 1
      modifies this`buffers
      ensures Allocated() && buffers == old(buffers)[1..]
      ensures Contents(buffers) == Contents(old(buffers))[1..]
    {
      ContentsTail(buffers);
      buffers := buffers[1..];
    }

    /** The window offered to `send`, which lies in the front chunk: the bytes that are
        to be sent next, as long as the stream is in order. */
    method FrontWindow() returns (window: seq<byte>)
      requires Allocated() && Possible(View()) && windex > 0
      ensures 0 < |window| == Offer(rindex, windex) && window == Front(View(), |window|)
      ensures Bounded(View()) ==> window <= Pending(View())
    {
      var valid := Offer(rindex, windex);
      window := buffers[0][rindex..rindex + valid];
      if Bounded(View()) {
        FrontIsNext(View(), valid);
      }
    }

    /** The snapshot of the window, and what is appended behind its back. */
    method TakeSnapshot(late: seq<byte>) returns (window: seq<byte>)
      requires Valid() && windex > 0
      modifies this`buffers, this`windex, this`nextBuffer, this`accepted, this`owned, this`complete, owned
      ensures Valid() && OnlyFreshChunks() && sent == old(sent)
      ensures Books() == AfterAppend(old(Books()), late).(complete := false)
      ensures 0 < |window| == old(Offer(rindex, windex)) <= Offer(rindex, windex)
      ensures window == Front(View(), |window|)
      ensures Rewinds(View(), |window|) <==> late == [] || old(windex) >= OUT_BUFFER_SIZE
    {
      complete := false;
      ghost var q := View();
      window := FrontWindow();
      AppendBuffer(late);
      WindowStays(q, View(), late);
    }

    /** What one round does with the answer to the send of `window`: a failure or a
        part of the window leave the indices alone, the whole of it is committed. */
    method TakeAnswer(window: seq<byte>, answer: Answer) returns (wire: seq<byte>, go: bool, report: Report)
      requires Valid() && !complete
      requires 0 < |window| <= Offer(rindex, windex) && window == Front(View(), |window|)
      modifies this`buffers, this`rindex, this`windex, this`nextBuffer, this`complete, this`flags
      modifies this`sent, this`takes
      ensures Valid() && sent == old(sent) + wire
      ensures wire <= window && (answer.Fails? ==> wire == [])
      ensures answer.Takes? ==> |wire| <= answer.room && (|wire| == answer.room || wire == window)
      ensures complete <==> answer == Fails(EAGAIN)
      ensures Books() == AfterAnswer(old(Books()), |window|, old(Rewinds(View(), |window|)), answer)
      ensures go <==> answer.Continues()
      ensures report == if answer.Takes? then if answer.room < |window| then Silent else Completed(|window|)
                        else if answer.e == EINTR || answer.e == EAGAIN then Silent
                        else Failed(answer.e)
    {
      wire, go, report := [], false, Silent;
      if answer.Fails? {
        if answer.e == EINTR {
          go := true;
        } else if answer.e == EAGAIN {
          complete := true;
        } else {
          if answer.e == ECONNRESET || answer.e == EPIPE {
            flags := flags.(reset := true);
          }
          flags := flags.(error := true);
          report := Failed(answer.e);
        }
        return;
      }
      flags := flags.(error := false);
      go := true;
      report, wire := AcceptSend(window, answer.room);
    }

    /** The end of a round whose send succeeded. */
    method AcceptSend(window: seq<byte>, room: nat) returns (report: Report, wire: seq<byte>)
      requires Valid() && !complete
      requires 0 < |window| <= Offer(rindex, windex) && window == Front(View(), |window|)
      modifies this`buffers, this`rindex, this`windex, this`nextBuffer, this`sent, this`takes
      ensures Valid() && sent == old(sent) + wire
      ensures wire == window[..Min(room, |window|)]
      ensures Books() == AfterTaking(old(Books()), |window|, old(Rewinds(View(), |window|)), Min(room, |window|))
      ensures report == if room < |window| then Silent else Completed(|window|)
    {
      if room < |window| {
        wire, report := window[..room], Silent;
        FrontPrefix(View(), |window|, room);
        KeepPart(wire, |window|);
      } else {
        wire, report := window[..|window|], Completed(|window|);
        Finish(window);
      }
    }

    /** The end of a round whose send took a part of a window of `offered`. */
    method KeepPart(wire: seq<byte>, offered: nat)
      requires Valid() && |wire| < offered <= Offer(rindex, windex) && wire == Front(View(), |wire|)
      modifies this`sent, this`takes
      ensures Valid() && sent == old(sent) + wire
      ensures Books() == AfterTaking(old(Books()), offered, Rewinds(View(), offered), |wire|)
    {
      LedgerAfterSend(View(), sent, accepted, takes, offered, |wire|);
      sent, takes := sent + wire, takes + [Take(rindex, offered, |wire|, Rewinds(View(), offered))];
    }

    /** The end of a round whose send took the whole window. */
    method Finish(window: seq<byte>)
      requires Valid() && !complete
      requires 0 < |window| <= Offer(rindex, windex) && window == Front(View(), |window|)
      modifies this`buffers, this`rindex, this`windex, this`nextBuffer, this`sent, this`takes
      ensures Valid() && sent == old(sent) + window
      ensures Books() == AfterTaking(old(Books()), |window|, old(Rewinds(View(), |window|)), |window|)
    {
      ghost var t := Take(rindex, |window|, |window|, Rewinds(View(), |window|));
      LedgerAfterSend(View(), sent, accepted, takes, |window|, |window|);
      CommitBooked(window, t);
    }

    /** The commit of a window, when the books are known to be right after it. */
    method CommitBooked(window: seq<byte>, ghost t: Take)
      requires Allocated() && !complete && nextBuffer == buffers[0] && 0 < |window| <= windex
      requires Ledger(Committed(View(), |window|), sent + window, accepted, takes + [t])
      requires t == Take(rindex, |window|, |window|, Rewinds(View(), |window|))
      modifies this`buffers, this`rindex, this`windex, this`nextBuffer, this`sent, this`takes
      ensures Valid() && sent == old(sent) + window
      ensures Books() == AfterTaking(old(Books()), |window|, old(Rewinds(View(), |window|)), |window|)
    {
      Commit(|window|);
      sent, takes := sent + window, takes + [t];
    }

    /** One round of the loop of `on_write`, with `late` appended by other threads
        between the snapshot and the commit. */
    method WriteOnce(late: seq<byte>, answer: Answer) returns (wire: seq<byte>, go: bool, report: Report)
      requires !flags.closed ==> Valid()
      modifies this, owned
      ensures !flags.closed ==> Valid()
      ensures OnlyFreshChunks() && sent == old(sent) + wire
      ensures Books() == if old(Passes(Books())) then Rounded(old(Books()), late, answer) else old(Books())
      ensures go <==> old(Passes(Books())) && answer.Continues()
      ensures !old(Passes(Books())) || answer.Fails? ==> wire == []
      ensures old(Passes(Books())) && answer.Takes? ==>
                && |wire| <= answer.room && |wire| <= old(Offer(rindex, windex))
                && (|wire| == answer.room || |wire| == old(Offer(rindex, windex)))
      ensures complete == if old(Passes(Books())) then answer == Fails(EAGAIN) else old(complete)
      ensures report == if !old(Passes(Books())) then Silent
                        else if answer.Fails? then if Hard(answer) then Failed(answer.e) else Silent
                        else if |wire| == old(Offer(rindex, windex)) then Completed(|wire|)
                        else Silent
      ensures !go ==> Stopped() || windex == 0 || complete || flags.error
    {
      wire, go, report := [], false, Silent;
      if Stopped() {
        return;
      }
      if Idle() {
        return;
      }
      var window := TakeSnapshot(late);
      wire, go, report := TakeAnswer(window, answer);
    }

    /** What other threads do before a round: `close` marks the session, posters that
        passed its guard before append. */
    method Precede(turn: Turn)
      requires !flags.closed ==> Valid()
      modifies this`buffers, this`windex, this`nextBuffer, this`accepted, this`owned, this`flags, owned
      ensures !flags.closed ==> Valid()
      ensures OnlyFreshChunks() && Ready(old(Books())) && Books() == Preceded(old(Books()), turn)
    {
      if turn.closing {
        flags := flags.(closing := true);
      }
      if !flags.closed {
        AppendBuffer(turn.before);
      }
    }

    /** A turn: what others do before the round, then the round.  A closed stream has
        been cleared and takes no bytes. */
    method TakeTurn(turn: Turn) returns (go: bool)
      requires !flags.closed ==> Valid()
      modifies this, owned
      ensures !flags.closed ==> Valid()
      ensures OnlyFreshChunks() && old(sent) <= sent
      ensures Ready(old(Books())) && Books() == AfterTurn(old(Books()), turn)
      ensures go == GoesOn(old(Books()), turn)
      ensures !go ==> Stopped() || windex == 0 || complete || flags.error
      ensures old(Stopped()) ==> sent == old(sent)
    {
      Precede(turn);
      var wire, report;
      wire, go, report := WriteOnce(turn.late, turn.answer);
    }

    /** `on_write`: rounds until one of them ends the loop, or the schedule does.
        Whatever comes in between, the books stay right and are what the schedule
        makes of them; nothing is sent once the session is stopped. */
    method OnWrite(turns: seq<Turn>) returns (ended: bool)
      requires !flags.closed ==> Valid()
      modifies this, owned
      ensures !flags.closed ==> Valid()
      ensures OnlyFreshChunks() && old(sent) <= sent
      ensures Ready(old(Books())) && Books() == AfterTurns(old(Books()), turns)
      ensures ended == Ends(old(Books()), turns)
      ensures ended ==> Stopped() || windex == 0 || complete || flags.error
      ensures complete == match LastAnswer(old(Books()), turns)
                          case None => old(complete)
                          case Some(answer) => answer == Fails(EAGAIN)
      ensures old(flags.shutdown || flags.closed || flags.closing) ==> sent == old(sent)
    {
      ghost var start := Books();
      ended := PlayTurns(turns);
      CompleteExactly(start, turns);
    }

    /** The loop of `on_write`. */
    method PlayTurns(turns: seq<Turn>) returns (ended: bool)
      requires !flags.closed ==> Valid()
      modifies this, owned
      ensures !flags.closed ==> Valid()
      ensures OnlyFreshChunks() && old(sent) <= sent
      ensures Ready(old(Books())) && Books() == AfterTurns(old(Books()), turns)
      ensures ended == Ends(old(Books()), turns)
      ensures ended ==> Stopped() || windex == 0 || complete || flags.error
      ensures old(Stopped()) ==> sent == old(sent)
    {
      ended := false;
      var i := 0;
      ghost var start := Books();
      while i < |turns| && !ended
        invariant i <= |turns| && (!flags.closed ==> Valid())
        invariant OnlyFreshChunks() && old(sent) <= sent
        invariant Ready(start) && Ready(Books())
        invariant AfterTurns(start, turns) == if ended then Books() else AfterTurns(Books(), turns[i..])
        invariant Ends(start, turns) == (ended || Ends(Books(), turns[i..]))
        invariant ended ==> Stopped() || windex == 0 || complete || flags.error
        invariant old(Stopped()) ==> Stopped() && sent == old(sent)
        decreases |turns| - i
      {
        assert turns[i..][1..] == turns[i + 1..];
        var go := TakeTurn(turns[i]);
        ended := !go;
        i := i + 1;
      }
    }

    /** Any mix of `async_write` and `on_write` calls, with any appends and answers.
        What is accepted and what is sent when is what the schedule says; the stream
        is in order if and only if the sends of the schedule are orderly, which they
        are in every calm one. */
    method Serve(uses: seq<Use>)
      requires Valid() && !flags.closed
      modifies this, owned
      ensures Valid() && !flags.closed && OnlyFreshChunks()
      ensures Ready(old(Books())) && Books() == AfterUses(old(Books()), uses)
      ensures old(sent) <= sent && accepted == old(accepted) + Given(old(Books()), uses)
      ensures complete == match LastAnswerOf(old(Books()), uses)
                          case None => old(complete)
                          case Some(answer) => answer == Fails(EAGAIN)
      ensures InOrder() <==> Orderly(AfterUses(old(Books()), uses).takes)
      ensures old(AllPlain(takes)) && CalmUses(uses) ==> InOrder()
    {
      ghost var start := Books();
      for i := 0 to |uses|
        invariant Valid() && !flags.closed && OnlyFreshChunks() && old(sent) <= sent
        invariant Ready(start) && Ready(Books()) && AfterUses(Books(), uses[i..]) == AfterUses(start, uses)
      {
        assert uses[i..][1..] == uses[i + 1..];
        ServeOne(uses[i]);
      }
      InOrderExactly();
      AcceptsGiven(start, uses);
      CompleteAfterUses(start, uses);
      if AllPlain(start.takes) && CalmUses(uses) {
        CalmUsesArePlain(start, uses);
        PlainIsOrderly(takes);
      }
    }

    method ServeOne(use: Use)
      requires Valid() && !flags.closed
      modifies this, owned
      ensures Valid() && !flags.closed && OnlyFreshChunks()
      ensures Ready(old(Books())) && Books() == AfterUse(old(Books()), use)
      ensures old(sent) <= sent
    {
      match use
      case Write(data) =>
        var post := AsyncWrite(data);
      case WriteAll(bufs) =>
        var done, post := AsyncWriteAll(bufs);
      case Event(turns) =>
        var ended := OnWrite(turns);
    }

    /** `clear`: the chunks are released and the read index reset, the write index is
        not; only a closed session does this, so nothing is read or written after. */
    method Clear()
      modifies this`buffers, this`nextBuffer, this`rindex
      ensures buffers == [] && nextBuffer == null && rindex == 0
    {
      while |buffers| > 0 {
        buffers := buffers[..|buffers| - 1];
      }
      nextBuffer := null;
      rindex := 0;
    }
  }
}
