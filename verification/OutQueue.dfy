/** posix_tcp_ostream.cpp: the output queue as a value.  Bytes wait in chunks of
    `OUT_BUFFER_SIZE`; logical index `i` is byte `i % OUT_BUFFER_SIZE` of chunk
    `i / OUT_BUFFER_SIZE`.  Appends and sends may come in any order and a send may
    take any part of its window; the ledger says when the stream survives that. */
module OutQueue {
  import opened Wrappers

  const OUT_BUFFER_SIZE: nat := 40960

  datatype Queue = Queue(chunks: seq<seq<byte>>, rindex: nat, windex: nat)

  ghost predicate Chunked(chunks: seq<seq<byte>>) {
    forall i :: 0 <= i < |chunks| ==> |chunks[i]| == OUT_BUFFER_SIZE
  }

  /** What holds of every queue, also of one whose stream is already broken. */
  ghost predicate Possible(q: Queue) {
    && Chunked(q.chunks) && |q.chunks| > 0
    && q.rindex < OUT_BUFFER_SIZE
    && (q.rindex < q.windex || q.rindex == q.windex == 0)
  }

  function Needed(windex: nat): nat {
    if windex == 0 then 1 else (windex + OUT_BUFFER_SIZE - 1) / OUT_BUFFER_SIZE
  }

  /** The least number of chunks, but at least one, that hold so many bytes. */
  lemma NeededExactly(windex: nat)
    ensures Needed(0) == 1 && OUT_BUFFER_SIZE * Needed(windex) >= windex
    ensures Needed(windex) > 1 ==> OUT_BUFFER_SIZE * (Needed(windex) - 1) < windex
  {
  }

  /** The chunks are as many as the write index needs: `max(1, ceil)` of it. */
  ghost predicate Sound(q: Queue) {
    Possible(q) && |q.chunks| == Needed(q.windex)
  }

  ghost predicate Bounded(q: Queue) {
    Chunked(q.chunks) && q.rindex <= q.windex <= OUT_BUFFER_SIZE * |q.chunks|
  }

  ghost function At(chunks: seq<seq<byte>>, i: nat): byte
    requires Chunked(chunks) && i < OUT_BUFFER_SIZE * |chunks|
  {
    chunks[i / OUT_BUFFER_SIZE][i % OUT_BUFFER_SIZE]
  }

  /** The bytes at logical indices `lo` up to `hi`. */
  ghost function Window(chunks: seq<seq<byte>>, lo: nat, hi: nat): (s: seq<byte>)
    requires Chunked(chunks) && lo <= hi <= OUT_BUFFER_SIZE * |chunks|
    ensures |s| == hi - lo && forall k :: 0 <= k < hi - lo ==> s[k] == At(chunks, lo + k)
  {
    seq<byte>(hi - lo, k requires 0 <= k < hi - lo => At(chunks, lo + k))
  }

  /** What is still to be sent. */
  ghost function Pending(q: Queue): seq<byte>
    requires Bounded(q)
  {
    Window(q.chunks, q.rindex, q.windex)
  }

  /** The size of the window offered to `send`: up to the end of the front chunk. */
  function Offer(rindex: nat, windex: nat): nat
    requires rindex <= windex && rindex < OUT_BUFFER_SIZE
  {
    if windex - rindex < OUT_BUFFER_SIZE - rindex then windex - rindex else OUT_BUFFER_SIZE - rindex
  }

  /** The first `n` bytes from the read index on, all in the front chunk. */
  ghost function Front(q: Queue, n: nat): seq<byte>
    requires Possible(q) && q.rindex + n <= OUT_BUFFER_SIZE
  {
    q.chunks[0][q.rindex..q.rindex + n]
  }

  /** `q'` is `q` with `data` stored at its write index. */
  ghost predicate Appended(q: Queue, q': Queue, data: seq<byte>)
    requires Possible(q)
  {
    if data == [] then q' == q
    else
      && q'.rindex == q.rindex && q'.windex == q.windex + |data| && Chunked(q'.chunks)
      && |q'.chunks| == (if |q.chunks| < Needed(q'.windex) then Needed(q'.windex) else |q.chunks|)
      && (forall i :: 0 <= i < q.windex && i < OUT_BUFFER_SIZE * |q.chunks| ==> At(q'.chunks, i) == At(q.chunks, i))
      && (forall i :: q.windex <= i < q'.windex ==> At(q'.chunks, i) == data[i - q.windex])
  }

  /** Does the commit of a whole window of `size` bytes set the read index to 0? */
  predicate Rewinds(q: Queue, size: nat) {
    q.rindex + size == OUT_BUFFER_SIZE || q.rindex + size == q.windex
  }

  /** The locked section after a send that took its whole window of `size` bytes. */
  function Committed(q: Queue, size: nat): Queue
    requires size <= q.windex
  {
    if Rewinds(q, size) then
      Queue(if |q.chunks| > 1 then q.chunks[1..] else q.chunks, 0, q.windex - size)
    else
      q.(rindex := q.rindex + size)
  }

  /** The queue after a send that took `taken` bytes of a window of `offered`: a part
      is not committed. */
  function AfterSend(q: Queue, offered: nat, taken: nat): Queue
    requires offered <= q.windex
  {
    if taken < offered then q else Committed(q, offered)
  }

  // ---------- windows ----------

  /** Cutting a window in two. */
  lemma WindowSplit(chunks: seq<seq<byte>>, lo: nat, mid: nat, hi: nat)
    requires Chunked(chunks) && lo <= mid <= hi <= OUT_BUFFER_SIZE * |chunks|
    ensures Window(chunks, lo, hi) == Window(chunks, lo, mid) + Window(chunks, mid, hi)
  {
  }

  /** Dropping the front chunk shifts every index by its size. */
  lemma WindowShift(chunks: seq<seq<byte>>, lo: nat, hi: nat)
    requires Chunked(chunks) && |chunks| > 0 && OUT_BUFFER_SIZE <= lo <= hi <= OUT_BUFFER_SIZE * |chunks|
    ensures Window(chunks, lo, hi) == Window(chunks[1..], lo - OUT_BUFFER_SIZE, hi - OUT_BUFFER_SIZE)
  {
    forall k | 0 <= k < hi - lo
      ensures Window(chunks, lo, hi)[k] == Window(chunks[1..], lo - OUT_BUFFER_SIZE, hi - OUT_BUFFER_SIZE)[k]
    {
      var i := lo + k;
      assert (i - OUT_BUFFER_SIZE) / OUT_BUFFER_SIZE == i / OUT_BUFFER_SIZE - 1;
      assert (i - OUT_BUFFER_SIZE) % OUT_BUFFER_SIZE == i % OUT_BUFFER_SIZE;
    }
  }

  lemma SoundIsBounded(q: Queue)
    requires Sound(q)
    ensures Bounded(q)
  {
  }

  /** What is offered is what is to be sent next. */
  lemma FrontIsNext(q: Queue, n: nat)
    requires Possible(q) && Bounded(q) && n <= Offer(q.rindex, q.windex)
    ensures Front(q, n) == Window(q.chunks, q.rindex, q.rindex + n)
    ensures Pending(q) == Front(q, n) + Window(q.chunks, q.rindex + n, q.windex)
  {
    WindowSplit(q.chunks, q.rindex, q.rindex + n, q.windex);
    forall k | 0 <= k < n
      ensures Front(q, n)[k] == Window(q.chunks, q.rindex, q.rindex + n)[k]
    {
      var i := q.rindex + k;
      assert i / OUT_BUFFER_SIZE == 0 && i % OUT_BUFFER_SIZE == i;
      assert At(q.chunks, i) == q.chunks[0][i];
    }
  }

  lemma FrontPrefix(q: Queue, n: nat, m: nat)
    requires Possible(q) && m <= n && q.rindex + n <= OUT_BUFFER_SIZE
    ensures Front(q, m) == Front(q, n)[..m]
  {
  }

  /** An append to a sound queue puts `data` behind what was there. */
  lemma AppendExtends(q: Queue, q': Queue, data: seq<byte>)
    requires Sound(q) && Appended(q, q', data)
    ensures Sound(q') && Bounded(q) && Bounded(q') && Pending(q') == Pending(q) + data
  {
    if data != [] {
      assert Window(q'.chunks, q.rindex, q'.windex) == Window(q.chunks, q.rindex, q.windex) + data;
    }
  }

  // ---------- one commit ----------

  /** Committing a send is right exactly when it does not rewind a read index that
      was not 0: the rewind subtracts the size of this send only. */
  lemma CommitExact(q: Queue, size: nat)
    requires Sound(q) && Bounded(q) && 0 < size <= Offer(q.rindex, q.windex)
    ensures var q' := Committed(q, size);
            Bounded(q') && Front(q, size) + Pending(q') == Pending(q) <==> q.rindex == 0 || !Rewinds(q, size)
    ensures q.rindex == 0 || !Rewinds(q, size) ==> Sound(Committed(q, size))
  {
    var q' := Committed(q, size);
    var r := q.rindex + size;
    FrontIsNext(q, size);
    if Rewinds(q, size) {
      if q.rindex == 0 && r == OUT_BUFFER_SIZE && |q.chunks| > 1 {
        WindowShift(q.chunks, r, q.windex);
      } else if q.rindex != 0 && Bounded(q') {
        assert |Front(q, size) + Pending(q')| != |Pending(q)|;
      }
    }
  }

  /** A commit rewinds exactly when nothing was appended since the window was taken,
      or the window reached the end of its chunk. */
  lemma RewindExact(q: Queue, q': Queue, late: seq<byte>)
    requires Possible(q) && q.rindex < q.windex && Appended(q, q', late)
    ensures Rewinds(q', Offer(q.rindex, q.windex)) <==> late == [] || q.windex >= OUT_BUFFER_SIZE
  {
  }

  // ---------- any number of sends ----------

  /** A send: the read index it began at, the size of its window, how much of it the
      socket took, and whether its commit rewinds. */
  datatype Take = Take(from: nat, offered: nat, taken: nat, rewinds: bool) {
    predicate Whole() {
      taken == offered
    }

    /** How many of the bytes it sent are sent again later. */
    function Again(): nat {
      if !Whole() then taken else if rewinds then from else 0
    }
  }

  /** How many bytes have been sent twice or are going to be. */
  function Excess(takes: seq<Take>): nat {
    if takes == [] then 0 else Excess(takes[..|takes| - 1]) + takes[|takes| - 1].Again()
  }

  /** Is the read index off 0?  The last whole send says so. */
  predicate Drifting(takes: seq<Take>) {
    if takes == [] then false
    else
      var last := takes[|takes| - 1];
      if last.Whole() then !last.rewinds else Drifting(takes[..|takes| - 1])
  }

  /** A send takes all or nothing, and no whole send that rewinds comes after one
      that does not. */
  ghost predicate Orderly(takes: seq<Take>) {
    && (forall i :: 0 <= i < |takes| ==> takes[i].Whole() || takes[i].taken == 0)
    && (forall i, j :: 0 <= i < j < |takes| && takes[i].Whole() && takes[j].Whole() ==>
          takes[j].rewinds ==> takes[i].rewinds)
  }

  lemma {:induction false} DriftingHasCause(takes: seq<Take>)
    ensures Drifting(takes) ==> exists i :: 0 <= i < |takes| && takes[i].Whole() && !takes[i].rewinds
    ensures Orderly(takes) && !Drifting(takes) ==>
              forall i :: 0 <= i < |takes| && takes[i].Whole() ==> takes[i].rewinds
  {
    if takes != [] {
      DriftingHasCause(takes[..|takes| - 1]);
    }
  }

  lemma OrderlyStep(takes: seq<Take>, t: Take)
    ensures Orderly(takes + [t]) <==>
            Orderly(takes) && (t.Whole() || t.taken == 0) && !(t.Whole() && t.rewinds && Drifting(takes))
  {
    var more := takes + [t];
    DriftingHasCause(takes);
    assert forall i :: 0 <= i < |takes| ==> more[i] == takes[i];
    assert more[|takes|] == t;
  }

  /** The books of a queue: `sent` has gone to the socket, `accepted` was appended,
      `takes` are the sends so far.  What was sent or still is to be sent exceeds what
      was accepted by exactly the excess of the sends; without excess the stream is
      `accepted`, in order, sent once. */
  ghost predicate Ledger(q: Queue, sent: seq<byte>, accepted: seq<byte>, takes: seq<Take>) {
    && Possible(q)
    && (q.rindex != 0 <==> Drifting(takes))
    && |sent| + q.windex - q.rindex == |accepted| + Excess(takes)
    && (Excess(takes) == 0 <==> Orderly(takes))
    && (Orderly(takes) ==> Sound(q) && Bounded(q) && sent + Pending(q) == accepted)
  }

  /** What was sent, then what is to be sent, is what was accepted. */
  ghost predicate Intact(q: Queue, sent: seq<byte>, accepted: seq<byte>) {
    Bounded(q) && sent + Pending(q) == accepted
  }

  /** The stream is intact if and only if the sends were orderly. */
  lemma LedgerExact(q: Queue, sent: seq<byte>, accepted: seq<byte>, takes: seq<Take>)
    requires Ledger(q, sent, accepted, takes)
    ensures Intact(q, sent, accepted) <==> Orderly(takes)
  {
    if Intact(q, sent, accepted) {
      assert |sent + Pending(q)| == |accepted|;
    }
  }

  lemma LedgerAfterAppend(q: Queue, sent: seq<byte>, accepted: seq<byte>, takes: seq<Take>, q': Queue, data: seq<byte>)
    requires Ledger(q, sent, accepted, takes) && Appended(q, q', data)
    ensures Ledger(q', sent, accepted + data, takes)
  {
    if Orderly(takes) {
      AppendExtends(q, q', data);
      assert sent + (Pending(q) + data) == sent + Pending(q) + data;
    }
  }

  /** The bytes of the books after an orderly send. */
  lemma OrderlySend(q: Queue, sent: seq<byte>, accepted: seq<byte>, offered: nat, taken: nat)
    requires Sound(q) && Intact(q, sent, accepted)
    requires 0 < offered <= Offer(q.rindex, q.windex)
    requires taken == 0 || (taken == offered && (q.rindex == 0 || !Rewinds(q, offered)))
    ensures Sound(AfterSend(q, offered, taken))
    ensures Intact(AfterSend(q, offered, taken), sent + Front(q, taken), accepted)
  {
    var q' := AfterSend(q, offered, taken);
    if taken == 0 {
      assert sent + Front(q, 0) == sent;
    } else {
      CommitExact(q, offered);
      SoundIsBounded(q');
      assert sent + Front(q, taken) + Pending(q') == sent + (Front(q, taken) + Pending(q'));
    }
  }

  lemma LedgerAfterSend(q: Queue, sent: seq<byte>, accepted: seq<byte>, takes: seq<Take>, offered: nat, taken: nat)
    requires Ledger(q, sent, accepted, takes)
    requires 0 < offered <= Offer(q.rindex, q.windex) && taken <= offered
    ensures Ledger(AfterSend(q, offered, taken), sent + Front(q, taken), accepted,
                   takes + [Take(q.rindex, offered, taken, Rewinds(q, offered))])
  {
    var t := Take(q.rindex, offered, taken, Rewinds(q, offered));
    assert (takes + [t])[..|takes|] == takes;
    OrderlyStep(takes, t);
    if Orderly(takes + [t]) {
      OrderlySend(q, sent, accepted, offered, taken);
    }
  }

  /** A send that took nothing leaves the books as they are. */
  lemma LedgerAfterNothing(q: Queue, sent: seq<byte>, accepted: seq<byte>, takes: seq<Take>, t: Take)
    requires Ledger(q, sent, accepted, takes) && !t.Whole() && t.taken == 0
    ensures Ledger(q, sent, accepted, takes + [t])
  {
    assert (takes + [t])[..|takes|] == takes;
    OrderlyStep(takes, t);
  }

  // ---------- runs ----------

  /** What happens to a queue: an append between write iterations, or an iteration in
      which `late` is appended between the snapshot of the window and the commit, and
      the socket takes up to `room` bytes of the window. */
  datatype Move = Append(data: seq<byte>) | Send(late: seq<byte>, room: nat) {
    function Data(): seq<byte> {
      if Append? then data else late
    }
  }

  function Taken(q: Queue, room: nat): nat
    requires q.rindex < q.windex && q.rindex < OUT_BUFFER_SIZE
  {
    var valid := Offer(q.rindex, q.windex);
    if room < valid then room else valid
  }

  ghost predicate Moves(q: Queue, m: Move, q': Queue) {
    && Possible(q)
    && match m
       case Append(data) => Appended(q, q', data)
       case Send(late, room) =>
         && q.rindex < q.windex
         && exists mid :: Appended(q, mid, late) && q' == AfterSend(mid, Offer(q.rindex, q.windex), Taken(q, room))
  }

  ghost predicate MovesAt(qs: seq<Queue>, moves: seq<Move>, i: nat)
    requires i < |moves| && i + 1 < |qs|
  {
    Moves(qs[i], moves[i], qs[i + 1])
  }

  /** Any run from a queue at read index 0, as a new one is. */
  ghost predicate Runs(qs: seq<Queue>, moves: seq<Move>) {
    && |qs| == |moves| + 1 && Sound(qs[0]) && Bounded(qs[0]) && qs[0].rindex == 0
    && forall i :: 0 <= i < |moves| ==> MovesAt(qs, moves, i)
  }

  /** Did the socket take the whole window of move `i`? */
  ghost predicate WholeAt(qs: seq<Queue>, moves: seq<Move>, i: nat)
    requires Runs(qs, moves) && i < |moves|
  {
    assert MovesAt(qs, moves, i);
    moves[i].Send? && Offer(qs[i].rindex, qs[i].windex) <= moves[i].room
  }

  /** Did the socket take some but not all of the window of move `i`? */
  ghost predicate PartAt(qs: seq<Queue>, moves: seq<Move>, i: nat)
    requires Runs(qs, moves) && i < |moves|
  {
    assert MovesAt(qs, moves, i);
    moves[i].Send? && 0 < moves[i].room < Offer(qs[i].rindex, qs[i].windex)
  }

  /** Was nothing appended in the midst of move `i`, or did its window fill its chunk? */
  predicate HarmlessAt(qs: seq<Queue>, moves: seq<Move>, i: nat)
    requires i < |moves| && i < |qs|
  {
    moves[i].Data() == [] || qs[i].windex >= OUT_BUFFER_SIZE
  }

  ghost function TakeAt(qs: seq<Queue>, moves: seq<Move>, i: nat): Take
    requires Runs(qs, moves) && i < |moves|
  {
    assert MovesAt(qs, moves, i);
    var q := qs[i];
    if moves[i].Append? then Take(q.rindex, 1, 0, false)
    else Take(q.rindex, Offer(q.rindex, q.windex), Taken(q, moves[i].room), HarmlessAt(qs, moves, i))
  }

  ghost function Takes(qs: seq<Queue>, moves: seq<Move>, n: nat): (takes: seq<Take>)
    requires Runs(qs, moves) && n <= |moves|
    ensures |takes| == n && forall i :: 0 <= i < n ==> takes[i] == TakeAt(qs, moves, i)
  {
    if n == 0 then [] else Takes(qs, moves, n - 1) + [TakeAt(qs, moves, n - 1)]
  }

  /** What the first `n` moves sent. */
  ghost function Wire(qs: seq<Queue>, moves: seq<Move>, n: nat): seq<byte>
    requires Runs(qs, moves) && n <= |moves|
  {
    if n == 0 then []
    else
      assert MovesAt(qs, moves, n - 1);
      var q, m := qs[n - 1], moves[n - 1];
      Wire(qs, moves, n - 1) + if m.Append? then [] else Front(q, Taken(q, m.room))
  }

  /** What there was to send at first, with all that was appended in `n` moves. */
  ghost function Accepted(qs: seq<Queue>, moves: seq<Move>, n: nat): seq<byte>
    requires Runs(qs, moves) && n <= |moves|
  {
    if n == 0 then Pending(qs[0]) else Accepted(qs, moves, n - 1) + moves[n - 1].Data()
  }

  /** An append does not touch the window on offer. */
  lemma FrontStays(q: Queue, q': Queue, data: seq<byte>, n: nat)
    requires Possible(q) && Appended(q, q', data) && n <= Offer(q.rindex, q.windex)
    ensures Possible(q') && Front(q', n) == Front(q, n)
  {
    if data != [] {
      forall k | 0 <= k < n
        ensures Front(q', n)[k] == Front(q, n)[k]
      {
        assert At(q'.chunks, q.rindex + k) == At(q.chunks, q.rindex + k);
      }
    }
  }

  /** Nor whether its commit will rewind, except as it must. */
  lemma WindowStays(q: Queue, q': Queue, late: seq<byte>)
    requires Possible(q) && q.rindex < q.windex && Appended(q, q', late)
    ensures var n := Offer(q.rindex, q.windex);
            && Possible(q') && Front(q', n) == Front(q, n) && n <= Offer(q'.rindex, q'.windex)
            && (Rewinds(q', n) <==> late == [] || q.windex >= OUT_BUFFER_SIZE)
  {
    FrontStays(q, q', late, Offer(q.rindex, q.windex));
    RewindExact(q, q', late);
  }

  lemma LedgerAfterRound(q: Queue, late: seq<byte>, room: nat, q': Queue,
                         sent: seq<byte>, accepted: seq<byte>, takes: seq<Take>)
    requires Moves(q, Send(late, room), q') && Ledger(q, sent, accepted, takes)
    ensures Ledger(q', sent + Front(q, Taken(q, room)), accepted + late,
                   takes + [Take(q.rindex, Offer(q.rindex, q.windex), Taken(q, room),
                                 late == [] || q.windex >= OUT_BUFFER_SIZE)])
  {
    var offered, taken := Offer(q.rindex, q.windex), Taken(q, room);
    var mid :| Appended(q, mid, late) && q' == AfterSend(mid, offered, taken);
    LedgerAfterAppend(q, sent, accepted, takes, mid, late);
    FrontStays(q, mid, late, taken);
    LedgerAfterSend(mid, sent, accepted + late, takes, offered, taken);
    RewindExact(q, mid, late);
  }

  /** The books of every run. */
  lemma {:induction false} RunLedger(qs: seq<Queue>, moves: seq<Move>, n: nat)
    requires Runs(qs, moves) && n <= |moves|
    ensures Ledger(qs[n], Wire(qs, moves, n), Accepted(qs, moves, n), Takes(qs, moves, n))
  {
    if n == 0 {
      assert [] + Pending(qs[0]) == Pending(qs[0]);
    } else {
      RunLedger(qs, moves, n - 1);
      assert MovesAt(qs, moves, n - 1);
      var q, sent, accepted, takes :=
        qs[n - 1], Wire(qs, moves, n - 1), Accepted(qs, moves, n - 1), Takes(qs, moves, n - 1);
      match moves[n - 1]
      case Append(data) =>
        LedgerAfterAppend(q, sent, accepted, takes, qs[n], data);
        LedgerAfterNothing(qs[n], sent, accepted + data, takes, TakeAt(qs, moves, n - 1));
        assert sent + [] == sent;
      case Send(late, room) =>
        LedgerAfterRound(q, late, room, qs[n], sent, accepted, takes);
    }
  }

  /** Over any run, with appends between and in the midst of the sends and whatever
      the socket takes: what was sent followed by what is queued is what was accepted
      if and only if no send took a part of its window, and no whole send that met a
      harmless append comes after one that met a harmful one. */
  lemma RunExact(qs: seq<Queue>, moves: seq<Move>)
    requires Runs(qs, moves)
    ensures var n := |moves|;
            Intact(qs[n], Wire(qs, moves, n), Accepted(qs, moves, n)) <==>
            && (forall i :: 0 <= i < n ==> !PartAt(qs, moves, i))
            && (forall i, j :: 0 <= i < j < n && WholeAt(qs, moves, i) && WholeAt(qs, moves, j) ==>
                  HarmlessAt(qs, moves, j) ==> HarmlessAt(qs, moves, i))
  {
    var n := |moves|;
    var takes := Takes(qs, moves, n);
    RunLedger(qs, moves, n);
    LedgerExact(qs[n], Wire(qs, moves, n), Accepted(qs, moves, n), takes);
    forall i | 0 <= i < n
      ensures takes[i].Whole() == WholeAt(qs, moves, i)
      ensures takes[i].Whole() ==> takes[i].rewinds == HarmlessAt(qs, moves, i)
      ensures !takes[i].Whole() ==> (takes[i].taken != 0 <==> PartAt(qs, moves, i))
    {
      assert MovesAt(qs, moves, i) && takes[i] == TakeAt(qs, moves, i);
    }
  }

  /** A harmless append right after a harmful one. */
  predicate RecoversAt(qs: seq<Queue>, moves: seq<Move>, i: nat)
    requires i + 1 < |moves| && i + 1 < |qs|
  {
    !HarmlessAt(qs, moves, i) && HarmlessAt(qs, moves, i + 1)
  }

  lemma {:induction false} RecoversBetween(qs: seq<Queue>, moves: seq<Move>, i: nat, j: nat) returns (k: nat)
    requires i < j < |moves| < |qs| && !HarmlessAt(qs, moves, i) && HarmlessAt(qs, moves, j)
    ensures i <= k < j && RecoversAt(qs, moves, k)
    decreases j - i
  {
    if HarmlessAt(qs, moves, i + 1) {
      k := i;
    } else {
      k := RecoversBetween(qs, moves, i + 1, j);
    }
  }

  /** When every move is a send that takes its whole window, that is: no harmful
      append is followed by a harmless one in the next iteration. */
  lemma WholeRunExact(qs: seq<Queue>, moves: seq<Move>)
    requires Runs(qs, moves) && forall i :: 0 <= i < |moves| ==> WholeAt(qs, moves, i)
    ensures var n := |moves|;
            Intact(qs[n], Wire(qs, moves, n), Accepted(qs, moves, n)) <==>
            forall i :: 0 <= i && i + 1 < n ==> !RecoversAt(qs, moves, i)
  {
    RunExact(qs, moves);
    forall i | 0 <= i < |moves|
      ensures !PartAt(qs, moves, i)
    {
      assert MovesAt(qs, moves, i) && WholeAt(qs, moves, i);
    }
    if i, j :| 0 <= i < j < |moves| && HarmlessAt(qs, moves, j) && !HarmlessAt(qs, moves, i) {
      assert WholeAt(qs, moves, i) && WholeAt(qs, moves, j);
      var k := RecoversBetween(qs, moves, i, j);
    }
  }

  // ---------- the smallest failing runs ----------

  /** A chunk that starts with `data`. */
  function Chunk(data: seq<byte>): (c: seq<byte>)
    requires |data| <= OUT_BUFFER_SIZE
    ensures |c| == OUT_BUFFER_SIZE && c[..|data|] == data
    ensures forall i :: 0 <= i < |data| ==> c[i] == data[i]
  {
    data + seq(OUT_BUFFER_SIZE - |data|, i => 0)
  }

  /** `a` is being sent when `b` is appended; both are sent, and then `a` is queued
      again. */
  lemma RepeatedByte(a: byte, b: byte) returns (qs: seq<Queue>, moves: seq<Move>)
    ensures Runs(qs, moves) && moves == [Send([b], 1), Send([], 1)]
    ensures Pending(qs[0]) == [a] && Accepted(qs, moves, 2) == [a, b]
    ensures Wire(qs, moves, 2) == [a, b] && Bounded(qs[2]) && Pending(qs[2]) == [a]
  {
    var q0, mid := Queue([Chunk([a])], 0, 1), Queue([Chunk([a, b])], 0, 2);
    var q1 := Committed(mid, 1);
    qs, moves := [q0, q1, Committed(q1, 1)], [Send([b], 1), Send([], 1)];
    assert Appended(q0, mid, [b]) && Appended(q1, q1, []);
    assert MovesAt(qs, moves, 0) && MovesAt(qs, moves, 1);
    assert Pending(q0) == [a];
    assert Accepted(qs, moves, 1) == [a] + [b];
    assert Accepted(qs, moves, 2) == Accepted(qs, moves, 1) + [];
    assert Wire(qs, moves, 1) == Front(q0, 1) == [a];
    assert Wire(qs, moves, 2) == [a] + Front(q1, 1);
  }

  /** The socket takes `a` of `a, b`; both are sent in the next iteration. */
  lemma RepeatedPrefix(a: byte, b: byte) returns (qs: seq<Queue>, moves: seq<Move>)
    ensures Runs(qs, moves) && moves == [Send([], 1), Send([], 2)]
    ensures Pending(qs[0]) == Accepted(qs, moves, 2) == [a, b]
    ensures Wire(qs, moves, 2) == [a, a, b] && Bounded(qs[2]) && Pending(qs[2]) == []
  {
    var q := Queue([Chunk([a, b])], 0, 2);
    qs, moves := [q, q, Committed(q, 2)], [Send([], 1), Send([], 2)];
    assert Appended(q, q, []);
    assert MovesAt(qs, moves, 0) && MovesAt(qs, moves, 1);
    assert Pending(q) == [a, b];
    assert Accepted(qs, moves, 1) == [a, b] + [];
    assert Accepted(qs, moves, 2) == Accepted(qs, moves, 1) + [];
    assert Wire(qs, moves, 1) == Front(q, 1) == [a];
    assert Wire(qs, moves, 2) == [a] + Front(q, 2);
  }
}
