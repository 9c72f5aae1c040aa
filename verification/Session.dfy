/** posix_session.cpp: writing to and closing a session.  `close` only marks the
    session and queues a closure; the closure runs in the loop, in the order of the
    task queue (TaskLoop.TasksInOrder). */
module Session {
  import opened Wrappers
  import opened Ostream
  import opened OutQueue
  import opened OutSchedule

  /** The closures that concern the session: the one `close` queues, with its
      handler, and the `on_write` that `async_write` queues. */
  datatype Task = CloseTask(handler: nat) | WriteTask

  /** What happens to the session: calls from any thread, and what the loop does.
      `turns` is what surrounds the rounds of an `on_write`. */
  datatype Happening =
    | CallClose(handler: nat)
    | CallWrite(data: seq<byte>)
    | LoopTask(turns: seq<Turn>)
    | WriteEvent(turns: seq<Turn>)
  {
    predicate Calm() {
      LoopTask? || WriteEvent? ==> CalmTurns(turns)
    }
  }

  predicate CalmScript(script: seq<Happening>) {
    forall i :: 0 <= i < |script| ==> script[i].Calm()
  }

  function Closer(t: Task): seq<nat> {
    match t
    case CloseTask(h) => [h]
    case WriteTask => []
  }

  /** The handlers of the close closures in a queue. */
  function Closers(tasks: seq<Task>): seq<nat> {
    if tasks == [] then [] else Closers(tasks[..|tasks| - 1]) + Closer(tasks[|tasks| - 1])
  }

  lemma ClosersPush(tasks: seq<Task>, t: Task)
    ensures Closers(tasks + [t]) == Closers(tasks) + Closer(t)
    ensures Closers(tasks) + [] == Closers(tasks)
  {
    assert (tasks + [t])[..|tasks|] == tasks;
  }

  lemma {:induction false} ClosersSplit(tasks: seq<Task>)
    requires tasks != []
    ensures Closers(tasks) == Closer(tasks[0]) + Closers(tasks[1..])
  {
    if |tasks| == 1 {
      assert tasks[..0] == [] && tasks[1..] == [];
    } else {
      var front, last := tasks[..|tasks| - 1], tasks[|tasks| - 1];
      ClosersSplit(front);
      assert front[1..] == tasks[1..][..|tasks| - 2];
      var first, middle := Closer(tasks[0]), Closers(front[1..]);
      assert first + middle + Closer(last) == first + (middle + Closer(last));
    }
  }

  /** The handlers of the closes called for in a script. */
  function Handlers(script: seq<Happening>): seq<nat> {
    if script == [] then []
    else
      var last := script[|script| - 1];
      Handlers(script[..|script| - 1]) + if last.CallClose? then [last.handler] else []
  }

  lemma HandlersStep(script: seq<Happening>, i: nat)
    requires i < |script|
    ensures Handlers(script[..i + 1]) ==
            Handlers(script[..i]) + if script[i].CallClose? then [script[i].handler] else []
  {
    assert script[..i + 1][..i] == script[..i];
  }

  // ---------- what a script does to a session ----------

  /** A session, but for the bytes in its chunks; `dropped` is how many bytes were still
      queued when it was closed. */
  datatype Life = Life(
    books: Account, tasks: seq<Task>, registered: bool, open: bool, handled: seq<nat>, dropped: nat)

  function AfterClose(x: Life, handler: nat): Life {
    if x.books.flags.closed then x
    else
      x.(books := x.books.(flags := x.books.flags.(closing := true)), tasks := x.tasks + [CloseTask(handler)])
  }

  predicate Refuses(x: Life, data: seq<byte>) {
    x.books.flags.Stopping() || data == []
  }

  function AfterWrite(x: Life, data: seq<byte>): Life {
    if Refuses(x, data) then x
    else
      x.(books := AfterAppend(x.books, data), tasks := if x.books.complete then x.tasks else x.tasks + [WriteTask])
  }

  function Queued(a: Account): nat {
    if a.rindex < a.windex then a.windex - a.rindex else 0
  }

  /** The closure that `close` queued: the first one closes, the others do nothing. */
  function AfterClosure(x: Life, handler: nat): Life {
    if x.books.flags.closed then x
    else
      Life(x.books.(flags := x.books.flags.(closed := true, eof := true, reset := true), rindex := 0),
           x.tasks, false, false, x.handled + [handler], Queued(x.books))
  }

  function AfterOnWrite(x: Life, turns: seq<Turn>): (y: Life)
    requires Ready(x.books)
    ensures Ready(y.books)
  {
    x.(books := AfterTurns(x.books, turns))
  }

  function AfterTask(x: Life, turns: seq<Turn>): (y: Life)
    requires x.tasks != [] && (x.tasks[0].WriteTask? ==> Ready(x.books))
    ensures Ready(x.books) ==> Ready(y.books)
    ensures y.tasks == x.tasks[1..]
  {
    var y := x.(tasks := x.tasks[1..]);
    match x.tasks[0]
    case CloseTask(handler) => AfterClosure(y, handler)
    case WriteTask => AfterOnWrite(y, turns)
  }

  function AfterHappening(x: Life, h: Happening): (y: Life)
    requires Ready(x.books)
    ensures Ready(y.books)
  {
    match h
    case CallClose(handler) => AfterClose(x, handler)
    case CallWrite(data) => AfterWrite(x, data)
    case LoopTask(turns) => if x.tasks == [] then x else AfterTask(x, turns)
    case WriteEvent(turns) => if x.registered then AfterOnWrite(x, turns) else x
  }

  function AfterScript(x: Life, script: seq<Happening>): (y: Life)
    requires Ready(x.books)
    ensures Ready(y.books)
    decreases |script|
  {
    if script == [] then x else AfterScript(AfterHappening(x, script[0]), script[1..])
  }

  /** The loop runs all closures, each `on_write` with the given rounds. */
  function Drained(x: Life, turns: seq<Turn>): (y: Life)
    requires Ready(x.books)
    ensures Ready(y.books)
    decreases |x.tasks|
  {
    if x.tasks == [] then x else Drained(AfterTask(x, turns), turns)
  }

  // ---------- what a session accepts ----------

  /** What arrives while an `on_write` runs. */
  function Arriving(a: Account, turns: seq<Turn>): seq<byte>
    requires Ready(a)
  {
    if a.flags.closed then [] else Arrived(turns, Played(a, turns), Reached(a, turns))
  }

  function Contributed(x: Life, h: Happening): seq<byte>
    requires Ready(x.books)
  {
    match h
    case CallClose(_) => []
    case CallWrite(data) => if Refuses(x, data) then [] else data
    case LoopTask(turns) => if x.tasks != [] && x.tasks[0] == WriteTask then Arriving(x.books, turns) else []
    case WriteEvent(turns) => if x.registered then Arriving(x.books, turns) else []
  }

  function ScriptGiven(x: Life, script: seq<Happening>): seq<byte>
    requires Ready(x.books)
    decreases |script|
  {
    if script == [] then [] else Contributed(x, script[0]) + ScriptGiven(AfterHappening(x, script[0]), script[1..])
  }

  function DrainGiven(x: Life, turns: seq<Turn>): seq<byte>
    requires Ready(x.books)
    decreases |x.tasks|
  {
    if x.tasks == [] then []
    else Contributed(x, LoopTask(turns)) + DrainGiven(AfterTask(x, turns), turns)
  }

  lemma ArrivingIsAccepted(a: Account, turns: seq<Turn>)
    requires Ready(a)
    ensures AfterTurns(a, turns).accepted == a.accepted + Arriving(a, turns)
  {
    if a.flags.closed {
      assert turns != [] ==> !GoesOn(a, turns[0]);
    } else {
      AcceptsArrivals(a, turns);
    }
  }

  lemma ContributedIsAccepted(x: Life, h: Happening)
    requires Ready(x.books)
    ensures AfterHappening(x, h).books.accepted == x.books.accepted + Contributed(x, h)
  {
    if h.LoopTask? || h.WriteEvent? {
      ArrivingIsAccepted(x.books, h.turns);
    }
  }

  /** A session accepts what its script brings, in order, and nothing else: writes that
      are not refused, and what arrives while an `on_write` runs. */
  lemma {:induction false} ScriptIsAccepted(x: Life, script: seq<Happening>)
    requires Ready(x.books)
    ensures AfterScript(x, script).books.accepted == x.books.accepted + ScriptGiven(x, script)
    decreases |script|
  {
    if script != [] {
      var y := AfterHappening(x, script[0]);
      ContributedIsAccepted(x, script[0]);
      ScriptIsAccepted(y, script[1..]);
      Regroup(x.books.accepted, Contributed(x, script[0]), ScriptGiven(y, script[1..]));
    }
  }

  lemma {:induction false} DrainIsAccepted(x: Life, turns: seq<Turn>)
    requires Ready(x.books)
    ensures Drained(x, turns).books.accepted == x.books.accepted + DrainGiven(x, turns)
    decreases |x.tasks|
  {
    if x.tasks != [] {
      var y := AfterTask(x, turns);
      ContributedIsAccepted(x, LoopTask(turns));
      DrainIsAccepted(y, turns);
      Regroup(x.books.accepted, Contributed(x, LoopTask(turns)), DrainGiven(y, turns));
    }
  }

  // ---------- calm scripts ----------

  lemma CalmHappening(x: Life, h: Happening)
    requires Ready(x.books) && h.Calm() && AllPlain(x.books.takes)
    ensures AllPlain(AfterHappening(x, h).books.takes)
  {
    if h.LoopTask? || h.WriteEvent? {
      CalmTurnsArePlain(x.books, h.turns);
    }
  }

  lemma {:induction false} CalmScriptIsPlain(x: Life, script: seq<Happening>)
    requires Ready(x.books) && CalmScript(script) && AllPlain(x.books.takes)
    ensures AllPlain(AfterScript(x, script).books.takes)
    decreases |script|
  {
    if script != [] {
      assert script[0].Calm();
      CalmHappening(x, script[0]);
      CalmScriptIsPlain(AfterHappening(x, script[0]), script[1..]);
    }
  }

  lemma {:induction false} CalmDrainIsPlain(x: Life, turns: seq<Turn>)
    requires Ready(x.books) && CalmTurns(turns) && AllPlain(x.books.takes)
    ensures AllPlain(Drained(x, turns).books.takes)
    decreases |x.tasks|
  {
    if x.tasks != [] {
      assert LoopTask(turns).Calm();
      CalmHappening(x, LoopTask(turns));
      CalmDrainIsPlain(AfterTask(x, turns), turns);
    }
  }

  // ---------- queued bytes are attended to ----------

  /** Somebody will send what is queued, or there is a reason not to: the session is
      stopping, the last failure was a hard one, the socket is full and a write event
      will come, or an `on_write` is in the task queue. */
  predicate Attended(x: Life) {
    || x.books.flags.Stopping() || x.books.flags.error
    || x.books.windex == 0 || x.books.complete || WriteTask in x.tasks
  }

  /** The `on_write` that happens, if one does. */
  predicate Writes(x: Life, h: Happening) {
    match h
    case LoopTask(_) => x.tasks != [] && x.tasks[0] == WriteTask
    case WriteEvent(_) => x.registered
    case _ => false
  }

  /** Was the last `on_write` of a script cut short, because its schedule has no more
      turns?  `cut` is the answer for what came before the script. */
  predicate ScriptCut(x: Life, script: seq<Happening>, cut: bool)
    requires Ready(x.books)
    decreases |script|
  {
    if script == [] then cut
    else
      var h := script[0];
      ScriptCut(AfterHappening(x, h), script[1..], if Writes(x, h) then !Ends(x.books, h.turns) else cut)
  }

  predicate DrainCut(x: Life, turns: seq<Turn>, cut: bool)
    requires Ready(x.books)
    decreases |x.tasks|
  {
    if x.tasks == [] then cut
    else DrainCut(AfterTask(x, turns), turns, if x.tasks[0] == WriteTask then !Ends(x.books, turns) else cut)
  }

  /** An `on_write` that is not cut short ends for one of the reasons. */
  lemma {:induction false} EndedFor(a: Account, turns: seq<Turn>)
    requires Ready(a) && Ends(a, turns)
    ensures var b := AfterTurns(a, turns);
            b.flags.Stopping() || b.flags.error || b.windex == 0 || b.complete
    decreases |turns|
  {
    if GoesOn(a, turns[0]) {
      EndedFor(AfterTurn(a, turns[0]), turns[1..]);
    }
  }

  lemma StaysAttended(x: Life, h: Happening)
    requires Ready(x.books)
    requires if Writes(x, h) then Ends(x.books, h.turns) else Attended(x)
    ensures Attended(AfterHappening(x, h))
  {
    if Writes(x, h) {
      EndedFor(x.books, h.turns);
    } else if h.LoopTask? && x.tasks != [] {
      assert WriteTask in x.tasks ==> WriteTask in x.tasks[1..];
    }
  }

  /** In every session, after any script: queued bytes are attended to, unless the last
      `on_write` was cut short. */
  lemma {:induction false} ScriptAttended(x: Life, script: seq<Happening>, cut: bool)
    requires Ready(x.books) && (cut || Attended(x))
    ensures ScriptCut(x, script, cut) || Attended(AfterScript(x, script))
    decreases |script|
  {
    if script != [] {
      var h := script[0];
      var cut' := if Writes(x, h) then !Ends(x.books, h.turns) else cut;
      if !cut' {
        StaysAttended(x, h);
      }
      ScriptAttended(AfterHappening(x, h), script[1..], cut');
    }
  }

  lemma {:induction false} DrainAttended(x: Life, turns: seq<Turn>, cut: bool)
    requires Ready(x.books) && (cut || Attended(x))
    ensures DrainCut(x, turns, cut) || Attended(Drained(x, turns))
    ensures Drained(x, turns).tasks == []
    decreases |x.tasks|
  {
    if x.tasks != [] {
      var h := LoopTask(turns);
      var cut' := if Writes(x, h) then !Ends(x.books, turns) else cut;
      if !cut' {
        StaysAttended(x, h);
      }
      DrainAttended(AfterTask(x, turns), turns, cut');
    }
  }

  // ---------- a session that only writes ----------

  predicate OnlyWrites(script: seq<Happening>) {
    forall i :: 0 <= i < |script| ==> script[i].CallWrite?
  }

  /** All that a script writes. */
  function Written(script: seq<Happening>): seq<byte> {
    if script == [] then []
    else (if script[0].CallWrite? then script[0].data else []) + Written(script[1..])
  }

  /** A session like a new one, or one that has only been written to since all was sent. */
  predicate Waiting(x: Life) {
    && Ready(x.books) && !x.books.flags.Stopping() && !x.books.complete && x.books.rindex == 0
    && (forall i :: 0 <= i < |x.tasks| ==> x.tasks[i] == WriteTask)
    && (x.books.windex == 0 || x.tasks != [])
  }

  lemma {:induction false} WritesWait(x: Life, script: seq<Happening>)
    requires Waiting(x) && OnlyWrites(script)
    ensures var y := AfterScript(x, script);
            && Waiting(y) && y.books.windex == x.books.windex + |Written(script)|
            && y.books.accepted == x.books.accepted + Written(script) && y.books.takes == x.books.takes
    decreases |script|
  {
    if script != [] {
      assert script[0].CallWrite?;
      var data := script[0].data;
      WritesWait(AfterHappening(x, script[0]), script[1..]);
      Regroup(x.books.accepted, data, Written(script[1..]));
      assert data == [] ==> data + Written(script[1..]) == Written(script[1..]);
    }
  }

  /** As many clear turns as there are chunks of queued bytes send them all. */
  lemma {:induction false} WaitingDrains(x: Life, turns: seq<Turn>)
    requires Waiting(x) && Clear(turns) && |turns| * OUT_BUFFER_SIZE >= x.books.windex
    ensures var z := Drained(x, turns).books;
            z.windex == 0 && z.accepted == x.books.accepted && !z.flags.closed
    decreases |x.tasks|
  {
    if x.tasks != [] {
      assert x.tasks[0] == WriteTask;
      ClearTurnsDrain(x.books, turns);
      WaitingDrains(AfterTask(x, turns), turns);
    }
  }

  lemma ClearIsCalm(turns: seq<Turn>)
    requires Clear(turns)
    ensures CalmTurns(turns)
  {
  }

  class TcpSession {
    const stream: OutStream
    var tasks: seq<Task>
    var registered: bool          // the event is in the loop
    var open: bool                // the socket
    var handled: seq<nat>         // the close handlers that ran
    ghost var requested: seq<nat> // the close handlers that were queued
    ghost var sentAtClose: seq<byte>
    ghost var dropped: nat

    /** Before the close closure has run, every close that was asked for is still
        queued, and the session is marked; after that, the first one has been
        handled, nothing else can be, and nothing more is sent. */
    ghost predicate Valid()
      reads this, stream, stream.owned
    {
      if stream.flags.closed then
        && !registered && !open && requested != [] && handled == [requested[0]]
        && stream.sent == sentAtClose
        && |stream.sent| + dropped == |stream.accepted| + Excess(stream.takes)
        && (Orderly(stream.takes) ==> stream.sent <= stream.accepted)
      else
        && stream.Valid() && registered && open && handled == []
        && requested == Closers(tasks)
        && (requested != [] ==> stream.flags.closing)
    }

    ghost function View(): Life
      reads this, stream
    {
      Life(stream.Books(), tasks, registered, open, handled, dropped)
    }

    ghost predicate Closed()
      reads stream
    {
      stream.flags.closed
    }

    constructor ()
      ensures Valid() && !Closed() && tasks == [] && requested == []
      ensures fresh(stream) && fresh(stream.owned)
      ensures stream.sent == stream.accepted == [] && stream.takes == []
      ensures Attended(View()) && Waiting(View()) && AllPlain(stream.takes)
    {
      stream := new OutStream();
      tasks, registered, open, handled, requested, sentAtClose, dropped := [], true, true, [], [], [], 0;
    }

    /** `close`: marks the session and queues the closure, unless it is closed. */
    method Close(handler: nat)
      requires Valid()
      modifies this`tasks, this`requested, stream`flags
      ensures Valid() && Closed() == old(Closed()) && View() == AfterClose(old(View()), handler)
      ensures requested == old(requested) + if Closed() then [] else [handler]
      ensures tasks == old(tasks) + if Closed() then [] else [CloseTask(handler)]
      ensures stream.flags == if Closed() then old(stream.flags) else old(stream.flags).(closing := true)
    {
      if !stream.flags.closed {
        stream.flags := stream.flags.(closing := true);
        ClosersPush(tasks, CloseTask(handler));
        tasks := tasks + [CloseTask(handler)];
        requested := requested + [handler];
      }
    }

    /** `async_write`: refused once the session is closed, shut down or closing. */
    method AsyncWrite(data: seq<byte>) returns (taken: bool)
      requires Valid()
      modifies this`tasks, stream, stream.owned
      ensures Valid() && Closed() == old(Closed()) && stream.OnlyFreshChunks()
      ensures View() == AfterWrite(old(View()), data) && stream.sent == old(stream.sent)
      ensures taken <==> !old(stream.flags.closed || stream.flags.shutdown || stream.flags.closing) && data != []
      ensures stream.accepted == old(stream.accepted) + if taken then data else []
      ensures stream.windex == old(stream.windex) + if taken then |data| else 0
      ensures tasks == old(tasks) + if taken && !old(stream.complete) then [WriteTask] else []
    {
      taken := false;
      if !stream.flags.closed && !stream.flags.shutdown && !stream.flags.closing && |data| > 0 {
        TakeWrite(data);
        taken := true;
      }
    }

    /** A write that is not refused. */
    method TakeWrite(data: seq<byte>)
      requires Valid() && !stream.flags.Stopping() && data != []
      modifies this`tasks, stream, stream.owned
      ensures Valid() && !Closed() && stream.OnlyFreshChunks()
      ensures View() == AfterWrite(old(View()), data) && stream.sent == old(stream.sent)
      ensures tasks == old(tasks) + if old(stream.complete) then [] else [WriteTask]
    {
      var post := stream.AsyncWrite(data);
      ClosersPush(tasks, WriteTask);
      if post {
        tasks := tasks + [WriteTask];
      }
    }

    /** The closure that `close` queued. */
    method RunClose(handler: nat)
      requires if Closed() then Valid()
               else requested != [] && requested[0] == handler && handled == [] && stream.Valid()
      modifies this`registered, this`open, this`handled, this`sentAtClose, this`dropped, stream
      ensures Valid() && Closed() && stream.owned == old(stream.owned)
      ensures View() == AfterClosure(old(View()), handler) && stream.sent == old(stream.sent)
      ensures if old(Closed()) then unchanged(this) && unchanged(stream)
              else
                && handled == [handler] && !registered && !open && stream.buffers == []
                && stream.flags == old(stream.flags).(closed := true, eof := true, reset := true)
                && dropped == old(stream.windex - stream.rindex) && tasks == old(tasks)
    {
      if !stream.flags.closed {
        stream.InOrderExactly();
        CloseNow(handler);
      }
    }

    /** The body of the closure, for the session that is still open. */
    method CloseNow(handler: nat)
      requires !Closed() && requested != [] && requested[0] == handler && handled == []
      requires stream.rindex <= stream.windex && (Orderly(stream.takes) ==> stream.sent <= stream.accepted)
      requires |stream.sent| + stream.windex - stream.rindex == |stream.accepted| + Excess(stream.takes)
      modifies this`registered, this`open, this`handled, this`sentAtClose, this`dropped, stream
      ensures Valid() && Closed() && stream.owned == old(stream.owned)
      ensures View() == AfterClosure(old(View()), handler) && stream.sent == old(stream.sent)
      ensures handled == [handler] && !registered && !open && stream.buffers == []
      ensures stream.flags == old(stream.flags).(closed := true, eof := true, reset := true)
      ensures dropped == old(stream.windex - stream.rindex)
    {
      sentAtClose, dropped := stream.sent, stream.windex - stream.rindex;
      stream.flags := stream.flags.(closed := true, eof := true, reset := true);
      registered := false;
      open := false;
      stream.Clear();
      handled := handled + [handler];
    }

    /** The loop runs the next closure. */
    method RunTask(turns: seq<Turn>)
      requires Valid() && tasks != []
      modifies this, stream, stream.owned
      ensures Valid() && stream.OnlyFreshChunks() && requested == old(requested)
      ensures Ready(old(View()).books) && View() == AfterTask(old(View()), turns)
      ensures old(stream.sent) <= stream.sent
      ensures old(Closed()) ==> Closed() && stream.sent == old(stream.sent)
      ensures old(stream.Stopped()) ==> stream.sent == old(stream.sent)
      ensures old(tasks)[0].CloseTask? ==> Closed()
    {
      if tasks[0].CloseTask? {
        RunCloseTask();
      } else {
        RunWriteTask(turns);
      }
    }

    method RunCloseTask()
      requires Valid() && tasks != [] && tasks[0].CloseTask?
      modifies this, stream
      ensures Valid() && Closed() && stream.owned == old(stream.owned) && requested == old(requested)
      ensures View() == AfterTask(old(View()), []) && stream.sent == old(stream.sent)
    {
      ClosersSplit(tasks);
      var handler := tasks[0].handler;
      tasks := tasks[1..];
      RunClose(handler);
    }

    method RunWriteTask(turns: seq<Turn>)
      requires Valid() && tasks != [] && tasks[0].WriteTask?
      modifies this`tasks, stream, stream.owned
      ensures Valid() && stream.OnlyFreshChunks() && Closed() == old(Closed())
      ensures Ready(old(View()).books) && View() == AfterTask(old(View()), turns)
      ensures old(stream.sent) <= stream.sent && (old(stream.Stopped()) ==> stream.sent == old(stream.sent))
    {
      ClosersSplit(tasks);
      assert [] + Closers(tasks[1..]) == Closers(tasks[1..]);
      tasks := tasks[1..];
      OnWrite(turns);
    }

    /** `on_write`, from a queued closure or from a write event: it accepts what arrives
        while it runs, and what was sent followed by what is queued stays what was
        accepted if and only if the sends of the schedule are orderly. */
    method OnWrite(turns: seq<Turn>)
      requires Valid()
      modifies stream, stream.owned
      ensures Valid() && stream.OnlyFreshChunks() && Closed() == old(Closed())
      ensures Ready(old(View()).books) && View() == AfterOnWrite(old(View()), turns)
      ensures old(stream.sent) <= stream.sent
      ensures stream.accepted == old(stream.accepted) + Arriving(old(stream.Books()), turns)
      ensures !Closed() ==> (stream.InOrder() <==> Orderly(AfterTurns(old(stream.Books()), turns).takes))
      ensures old(stream.Stopped()) ==> stream.sent == old(stream.sent)
    {
      ArrivingIsAccepted(stream.Books(), turns);
      var ended := stream.OnWrite(turns);
      if !stream.flags.closed {
        stream.InOrderExactly();
      }
    }

    /** One thing that happens. */
    method Undergo(h: Happening)
      requires Valid()
      modifies this, stream, stream.owned
      ensures Valid() && stream.OnlyFreshChunks()
      ensures Ready(old(View()).books) && View() == AfterHappening(old(View()), h)
      ensures old(stream.sent) <= stream.sent
      ensures old(Closed()) ==> Closed() && stream.sent == old(stream.sent)
      ensures requested == old(requested) + if h.CallClose? && !old(Closed()) then [h.handler] else []
    {
      match h {
        case CallClose(handler) =>
          Close(handler);
        case CallWrite(data) =>
          var taken := AsyncWrite(data);
        case LoopTask(turns) =>
          RunNext(turns);
        case WriteEvent(turns) =>
          if registered {
            OnWrite(turns);
          }
      }
    }

    /** The loop runs the next closure, if there is one. */
    method RunNext(turns: seq<Turn>)
      requires Valid()
      modifies this, stream, stream.owned
      ensures Valid() && stream.OnlyFreshChunks() && requested == old(requested)
      ensures Ready(old(View()).books) && View() == AfterHappening(old(View()), LoopTask(turns))
      ensures old(stream.sent) <= stream.sent
      ensures old(Closed()) ==> Closed() && stream.sent == old(stream.sent)
    {
      if |tasks| > 0 {
        RunTask(turns);
      }
    }

    /** The loop runs what is queued, an `on_write` with the given rounds. */
    method Drain(turns: seq<Turn>)
      requires Valid()
      modifies this, stream, stream.owned
      ensures Valid() && stream.OnlyFreshChunks() && tasks == [] && requested == old(requested)
      ensures Ready(old(View()).books) && View() == Drained(old(View()), turns)
      ensures old(stream.sent) <= stream.sent
      ensures requested != [] ==> Closed() && handled == [requested[0]]
    {
      ghost var start := View();
      while |tasks| > 0
        invariant Valid() && stream.OnlyFreshChunks() && requested == old(requested)
        invariant Ready(start.books) && Ready(View().books) && Drained(View(), turns) == Drained(start, turns)
        invariant old(stream.sent) <= stream.sent
        decreases |tasks|
      {
        RunTask(turns);
      }
    }

    /** What there is to say of a session at any time: once it is closed nothing has been
        sent since; what was sent and what is queued, or was when it was closed, exceed
        what was accepted by the excess of the sends; what was sent is a prefix of what
        was accepted as long as the sends are orderly; while it is open the rest is
        queued, if and only if they are. */
    lemma StreamState()
      requires Valid()
      ensures Closed() ==> stream.sent == sentAtClose
      ensures |stream.sent| + (if Closed() then dropped else stream.windex - stream.rindex) ==
              |stream.accepted| + Excess(stream.takes)
      ensures Orderly(stream.takes) ==> stream.sent <= stream.accepted
      ensures !Closed() ==> (stream.InOrder() <==> Orderly(stream.takes))
    {
      if !Closed() {
        stream.InOrderExactly();
      }
    }

    /** Whatever is called and whatever the loop does, the session goes through what
        the script says.  After the queue has been drained exactly one close handler
        has run, the first one asked for, if any was; nothing was sent once the
        session was closed; everything the script brings was accepted; and what was
        sent is a prefix of that whenever the sends of the script are orderly, as they
        are in a calm one.  If the last `on_write` was not cut short, a session that is
        left neither stopping nor with an error has nothing queued or waits for a write
        event.  A session that is only written to has sent everything it was given,
        once it has been drained with as many clear turns as that takes. */
    method Live(script: seq<Happening>, turns: seq<Turn>)
      requires Valid() && !Closed() && requested == []
      modifies this, stream, stream.owned
      ensures Valid() && (Closed() ==> stream.sent == sentAtClose)
      ensures |stream.sent| + (if Closed() then dropped else stream.windex - stream.rindex) ==
              |stream.accepted| + Excess(stream.takes)
      ensures handled == if Handlers(script) == [] then [] else [Handlers(script)[0]]
      ensures Ready(old(View()).books) && View() == Drained(AfterScript(old(View()), script), turns)
      ensures old(stream.sent) <= stream.sent
      ensures stream.accepted == old(stream.accepted) + ScriptGiven(old(View()), script)
                                 + DrainGiven(AfterScript(old(View()), script), turns)
      ensures Orderly(stream.takes) ==> stream.sent <= stream.accepted
      ensures !Closed() ==> (stream.InOrder() <==> Orderly(stream.takes))
      ensures CalmScript(script) && CalmTurns(turns) && old(AllPlain(stream.takes)) ==> Orderly(stream.takes)
      ensures old(Attended(View())) ==>
                || DrainCut(AfterScript(old(View()), script), turns, ScriptCut(old(View()), script, false))
                || stream.Stopped() || stream.flags.error || stream.windex == 0 || stream.complete
      ensures old(Waiting(View()) && AllPlain(stream.takes)) && OnlyWrites(script) && Clear(turns)
              && |turns| * OUT_BUFFER_SIZE >= old(stream.windex) + |Written(script)| ==>
                && !Closed() && stream.windex == 0 && stream.sent == stream.accepted
                && stream.accepted == old(stream.accepted) + Written(script)
    {
      ghost var start := View();
      Play(script);
      Drain(turns);
      StreamState();
      LifeOf(start, script, turns);
      if Attended(start) {
        ScriptAttended(start, script, false);
        DrainAttended(AfterScript(start, script), turns, ScriptCut(start, script, false));
      }
      if Waiting(start) && AllPlain(start.books.takes) && OnlyWrites(script) && Clear(turns)
         && |turns| * OUT_BUFFER_SIZE >= start.books.windex + |Written(script)| {
        AllSent(start, script, turns);
      }
    }

    /** What a session that is only written to comes to. */
    static lemma AllSent(x: Life, script: seq<Happening>, turns: seq<Turn>)
      requires Waiting(x) && AllPlain(x.books.takes) && OnlyWrites(script) && Clear(turns)
      requires |turns| * OUT_BUFFER_SIZE >= x.books.windex + |Written(script)|
      ensures var z := Drained(AfterScript(x, script), turns).books;
              && z.windex == 0 && !z.flags.closed && Orderly(z.takes)
              && z.accepted == x.books.accepted + Written(script)
    {
      WritesWait(x, script);
      WaitingDrains(AfterScript(x, script), turns);
      ClearIsCalm(turns);
      CalmDrainIsPlain(AfterScript(x, script), turns);
      PlainIsOrderly(Drained(AfterScript(x, script), turns).books.takes);
    }

    static lemma LifeOf(x: Life, script: seq<Happening>, turns: seq<Turn>)
      requires Ready(x.books)
      ensures var y := AfterScript(x, script);
              var z := Drained(y, turns);
              && z.books.accepted == x.books.accepted + ScriptGiven(x, script) + DrainGiven(y, turns)
              && (CalmScript(script) && CalmTurns(turns) && AllPlain(x.books.takes) ==> Orderly(z.books.takes))
    {
      var y := AfterScript(x, script);
      ScriptIsAccepted(x, script);
      DrainIsAccepted(y, turns);
      if CalmScript(script) && CalmTurns(turns) && AllPlain(x.books.takes) {
        CalmScriptIsPlain(x, script);
        CalmDrainIsPlain(y, turns);
        PlainIsOrderly(Drained(y, turns).books.takes);
      }
    }

    /** The script alone. */
    method Play(script: seq<Happening>)
      requires Valid() && !Closed() && requested == []
      modifies this, stream, stream.owned
      ensures Valid() && stream.OnlyFreshChunks()
      ensures Ready(old(View()).books) && View() == AfterScript(old(View()), script)
      ensures old(stream.sent) <= stream.sent
      ensures requested == [] <==> Handlers(script) == []
      ensures requested != [] ==> requested[0] == Handlers(script)[0]
    {
      ghost var start := View();
      for i := 0 to |script|
        invariant Valid() && stream.OnlyFreshChunks() && old(stream.sent) <= stream.sent
        invariant Ready(start.books) && Ready(View().books)
        invariant AfterScript(View(), script[i..]) == AfterScript(start, script)
        invariant requested == [] <==> Handlers(script[..i]) == []
        invariant requested != [] ==> requested[0] == Handlers(script[..i])[0]
      {
        assert script[i..][1..] == script[i + 1..];
        HandlersStep(script, i);
        Undergo(script[i]);
      }
      assert script[..|script|] == script;
    }
  }
}
