/**
  What `start()` does with one ready handle, with all the handles of one poll
  snapshot, with one iteration of its loop and with a run of iterations, as
  functions from the connection table to the new table, the hook calls made
  (in order) and whether an exception escaped.
*/
module EventDispatch {
  import opened PollTypes
  import opened WriteQueue
  import opened ConnectionTable

  datatype Outcome = Outcome(table: Table, events: seq<HookEvent>, flow: Flow)

  /** The teardown of the read and hang-up branches: the entry is erased
      first, then OnData is called once with the sentinel length. (Closing
      the handle is a system call outside the model.) */
  function TearDown(t: Table, fd: int, sentinel: int): (o: Outcome)
    ensures o.table == t - {fd} && o.flow == Proceed
    ensures o.events == [Data(fd, [], sentinel, None)]
  {
    var t' := t - {fd};
    Outcome(t', [Data(fd, [], sentinel, DepthIn(t', fd))], Proceed)
  }

  /** The listening socket is readable: one accept. A return below 1 is
      ignored when errno is transient and escapes otherwise; a failure to
      make the new handle non-blocking escapes. The client is admitted when
      the poll snapshot holds fewer than Backlog entries, and OnOpen gets its
      handle; otherwise it is closed and OnOpen gets -1. */
  function AcceptStep(t: Table, a: AcceptOutcome, snapshotSize: int): Outcome
  {
    if a.ret < 1 then
      if Transient(a.errno) then Outcome(t, [], Proceed)
      else Outcome(t, [], Fatal(AcceptFailed(a.errno)))
    else if !a.nonBlockingOk then Outcome(t, [], Fatal(NonBlockingFailed))
    else if snapshotSize < Backlog then
      var t' := t[a.ret := Fresh(a.ret)];
      Outcome(t', [Opened(a.ret, DepthIn(t', a.ret))], Proceed)
    else Outcome(t, [Opened(-1, DepthIn(t, -1))], Proceed)
  }

  /** The OnData calls of the recv loop, one per positive recv, in order. */
  function ChunkEvents(fd: int, chunks: seq<Chunk>, depth: Option<nat>): (evs: seq<HookEvent>)
  {
    seq(|chunks|, i requires 0 <= i < |chunks| => Data(fd, chunks[i], |chunks[i]|, depth))
  }

  /** How many recv results the loop delivers before one fills the whole
      buffer, so that its terminator would be written at index BufSize. */
  function Fitting(chunks: seq<Chunk>): (k: nat)
    ensures k <= |chunks|
    ensures forall i :: 0 <= i < k ==> |chunks[i]| < BufSize
    ensures k < |chunks| ==> |chunks[k]| == BufSize
  {
    if chunks == [] || |chunks[0]| == BufSize then 0 else 1 + Fitting(chunks[1..])
  }

  /** A client is readable: deliver every positive recv, then act on how the
      loop ended. End of stream tears down with 0, ECONNRESET with -2, a
      transient errno changes nothing, any other errno escapes. A recv that
      fills `buf` stops the model with BufferOverrun where the terminator
      would be written past the end, before its OnData call. */
  function ReadStep(t: Table, fd: int, script: RecvScript): Outcome
  {
    var k := Fitting(script.chunks);
    var delivered := ChunkEvents(fd, script.chunks[..k], DepthIn(t, fd));
    if k < |script.chunks| then Outcome(t, delivered, Fatal(BufferOverrun))
    else
      match script.end
      case EndOfStream =>
        var o := TearDown(t, fd, 0);
        Outcome(o.table, delivered + o.events, Proceed)
      case RecvError(e) =>
        if Transient(e) then Outcome(t, delivered, Proceed)
        else if e == ECONNRESET then
          var o := TearDown(t, fd, -2);
          Outcome(o.table, delivered + o.events, Proceed)
        else Outcome(t, delivered, Fatal(RecvFailed(e)))
  }

  function ClearWritable(c: Connection): Connection
  {
    c.(info := c.info.(events := c.info.events & !POLLOUT))
  }

  /** The callback call for a request, when the request has a callback. */
  function Notify(cb: Option<CallbackId>, fd: int, result: int, depth: Option<nat>): seq<HookEvent>
  {
    match cb
    case None => []
    case Some(id) => [Completion(id, fd, result, depth)]
  }

  /** A client is writable (and not readable). A missing entry makes
      `connections.at` throw. An empty queue loses its POLLOUT interest.
      Otherwise one send of the front request: a failure calls its callback
      with the negative value; progress updates the queue (see SendFront) and
      a completed request is popped before its callback runs; a zero-byte
      send clears POLLOUT and erases the entry, with no callback and no
      OnData call. */
  function WriteStep(t: Table, fd: int, s: SendOutcome, inPlace: bool): Outcome
  {
    if fd !in t then Outcome(t, [], Fatal(NoSuchConnection))
    else if t[fd].out == [] then Outcome(t[fd := ClearWritable(t[fd])], [], Proceed)
    else SendStep(t, fd, s, inPlace)
  }

  /** The send of WriteStep, for a handle whose queue is not empty. */
  function SendStep(t: Table, fd: int, s: SendOutcome, inPlace: bool): Outcome
    requires fd in t && t[fd].out != []
  {
    var c := t[fd];
    var r := c.out[0];
    var ret := SendReturn(s, |r.data|);
    match SendFront(c.out, ret, inPlace)
    case SendFailed(n) => Outcome(t, Notify(r.callback, fd, n, DepthIn(t, fd)), Proceed)
    case Progressed(q, completed) =>
      var t' := t[fd := c.(out := q)];
      Outcome(t', if completed.Some? then Notify(r.callback, fd, completed.value, DepthIn(t', fd)) else [], Proceed)
    case PeerClosed => Outcome(t[fd := ClearWritable(c)] - {fd}, [], Proceed)
  }

  /** A client reports POLLHUP (and neither POLLIN nor POLLOUT). */
  function HangUpStep(t: Table, fd: int): Outcome
  {
    TearDown(t, fd, -1)
  }

  /** One entry of the poll snapshot. The listening socket only ever takes
      the accept path; a client takes the first of readable, writable and
      hang-up whose bit poll reported; other bits are only logged. */
  function DispatchStep(t: Table, serverSock: int, snapshotSize: int, item: PollFd, r: Round, inPlace: bool): Outcome
  {
    var ev := r.revents(item.fd);
    if item.fd == serverSock then
      if ev & POLLIN != 0 then AcceptStep(t, r.accept, snapshotSize) else Outcome(t, [], Proceed)
    else if ev & POLLIN != 0 then ReadStep(t, item.fd, r.recv(item.fd))
    else if ev & POLLOUT != 0 then WriteStep(t, item.fd, r.send(item.fd), inPlace)
    else if ev & POLLHUP != 0 then HangUpStep(t, item.fd)
    else Outcome(t, [], Proceed)
  }

  /** The snapshot's entries in order, until an exception escapes. */
  function DispatchAll(t: Table, serverSock: int, snapshotSize: int, items: seq<PollFd>, r: Round, inPlace: bool): Outcome
    decreases |items|
  {
    if items == [] then Outcome(t, [], Proceed)
    else
      var o := DispatchStep(t, serverSock, snapshotSize, items[0], r, inPlace);
      if o.flow.Fatal? then o
      else
        var rest := DispatchAll(o.table, serverSock, snapshotSize, items[1..], r, inPlace);
        Outcome(rest.table, o.events + rest.events, rest.flow)
  }

  /** How an iteration of the event loop ends. */
  datatype RoundEnd = NextRound | Stop | Crash(cause: FatalCause)

  datatype RoundOutcome = RoundOutcome(table: Table, events: seq<HookEvent>, end: RoundEnd)

  /** One iteration of `while (true)`: call OnLoop, stop when it returns less
      than 1, else poll the snapshot of the table; a timeout or EINTR goes
      round again, another poll error escapes, and ready handles are
      dispatched. */
  ghost function RoundStep(t: Table, serverSock: int, r: Round, inPlace: bool): RoundOutcome
  {
    if r.timeout < 1 then RoundOutcome(t, [LoopCalled], Stop)
    else
      match r.poll
      case PollTimeout => RoundOutcome(t, [LoopCalled], NextRound)
      case PollError(e) =>
        RoundOutcome(t, [LoopCalled], if e == EINTR then NextRound else Crash(PollFailed(e)))
      case PollReady =>
        var snap := Snapshot(t);
        var o := DispatchAll(t, serverSock, |snap|, snap, r, inPlace);
        RoundOutcome(o.table, [LoopCalled] + o.events, if o.flow.Fatal? then Crash(o.flow.cause) else NextRound)
  }

  /** Successive iterations, one per element of `rounds`; NextRound at the
      end means the loop is still running when the inputs run out. */
  ghost function RunRounds(t: Table, serverSock: int, rounds: seq<Round>, inPlace: bool): RoundOutcome
    decreases |rounds|
  {
    if rounds == [] then RoundOutcome(t, [], NextRound)
    else
      var o := RoundStep(t, serverSock, rounds[0], inPlace);
      if !o.end.NextRound? then o
      else
        var rest := RunRounds(o.table, serverSock, rounds[1..], inPlace);
        RoundOutcome(rest.table, o.events + rest.events, rest.end)
  }

  /** What `startup` yields: the listening handle, or an exception. */
  datatype StartupOutcome = Listening(fd: int) | StartupFailed

  /** How `start()` ends: false for a listening handle below 1, true when
      OnLoop asks to stop, an escaping exception, or still running when the
      modelled iterations run out. */
  datatype StartResult = NotStarted | Stopped | Crashed(cause: FatalCause) | StillRunning

  datatype Run = Run(table: Table, events: seq<HookEvent>, result: StartResult)

  /** `start()`: register the listening handle (POLLIN, empty queue), then
      run the event loop. */
  ghost function StartRun(t: Table, startup: StartupOutcome, rounds: seq<Round>, inPlace: bool): Run
  {
    match startup
    case StartupFailed => Run(t, [], Crashed(SetupFailed))
    case Listening(fd) =>
      if fd < 1 then Run(t, [], NotStarted)
      else
        var o := RunRounds(t[fd := Fresh(fd)], fd, rounds, inPlace);
        Run(o.table, o.events,
            match o.end
            case NextRound => StillRunning
            case Stop => Stopped
            case Crash(c) => Crashed(c))
  }

  // ---------------------------------------------------------------------
  // Accept

  /** Admission: a successful accept adds a fresh entry (POLLIN, empty
      queue) and calls OnOpen with the handle exactly when the snapshot has
      fewer than Backlog entries; otherwise the table is unchanged and OnOpen
      gets -1. No entry already in the table changes, except one the new
      handle replaces. */
  lemma AcceptAdmitsBelowBacklog(t: Table, a: AcceptOutcome, snapshotSize: int)
    requires a.ret >= 1 && a.nonBlockingOk
    ensures var o := AcceptStep(t, a, snapshotSize);
            && o.flow == Proceed
            && (snapshotSize < Backlog ==>
                  o.table == t[a.ret := Fresh(a.ret)] && o.events == [Opened(a.ret, Some(0))])
            && (snapshotSize >= Backlog ==> o.table == t)
            && (TableInv(t) ==> o.events == if snapshotSize < Backlog then [Opened(a.ret, Some(0))] else [Opened(-1, None)])
  {
  }

  /** Accept errors: a transient one leaves everything unchanged and calls
      no hook; any other escapes, also without changing anything. */
  lemma AcceptErrors(t: Table, a: AcceptOutcome, snapshotSize: int)
    requires a.ret < 1
    ensures var o := AcceptStep(t, a, snapshotSize);
            && o.table == t && o.events == []
            && (o.flow == Proceed <==> Transient(a.errno))
  {
  }

  // ---------------------------------------------------------------------
  // Read and hang-up

  /** Each positive recv that fits the buffer reaches OnData in order, with
      its bytes and length; end of stream and ECONNRESET then erase the entry
      and make exactly one more OnData call, with 0 and -2, after the erase;
      a transient errno leaves the table as it was. A recv filling the whole
      buffer stops at the out-of-bounds terminator, with the table as it was.
      Other entries never change. */
  lemma ReadStepEffects(t: Table, fd: int, script: RecvScript)
    ensures var o := ReadStep(t, fd, script);
            var k := Fitting(script.chunks);
            && |o.events| >= k
            && (forall i :: 0 <= i < k ==> o.events[i] == Data(fd, script.chunks[i], |script.chunks[i]|, DepthIn(t, fd)))
            && (forall other :: other != fd ==> (other in o.table <==> other in t))
            && (forall other :: other != fd && other in t ==> o.table[other] == t[other])
            && (k < |script.chunks| ==>
                  o.table == t && |o.events| == k && o.flow == Fatal(BufferOverrun))
            && (k == |script.chunks| && script.end == EndOfStream ==>
                  fd !in o.table && o.events[k..] == [Data(fd, [], 0, None)] && o.flow == Proceed)
            && (k == |script.chunks| && script.end == RecvError(ECONNRESET) ==>
                  fd !in o.table && o.events[k..] == [Data(fd, [], -2, None)] && o.flow == Proceed)
            && (k == |script.chunks| && script.end.RecvError? && Transient(script.end.errno) ==>
                  o.table == t && |o.events| == k && o.flow == Proceed)
            && (o.flow.Fatal? <==>
                  k < |script.chunks|
                  || (script.end.RecvError? && !Transient(script.end.errno) && script.end.errno != ECONNRESET))
  {
    var o := ReadStep(t, fd, script);
    var k := Fitting(script.chunks);
    var delivered := ChunkEvents(fd, script.chunks[..k], DepthIn(t, fd));
    assert o.events[..k] == delivered;
  }

  /** As written, recv is asked for `sizeof(buf)` bytes, and a peer that
      sends that many at once makes the loop write the terminator at index
      BufSize, one past the end of `buf`, before any OnData call. */
  lemma AsWrittenRecvOverruns(t: Table, fd: int)
    ensures var script := RecvScript([seq(BufSize, _ => 0)], EndOfStream);
            && Within(script, BufSize)
            && ReadStep(t, fd, script) == Outcome(t, [], Fatal(BufferOverrun))
  {
    var script := RecvScript([seq(BufSize, _ => 0)], EndOfStream);
    assert Fitting(script.chunks) == 0;
  }

  /** Corrected, recv is asked for one byte less than the buffer: then no
      recv fills it, every result reaches OnData, and the read branch never
      stops at an overrun. */
  lemma CorrectedRecvNeverOverruns(t: Table, fd: int, script: RecvScript)
    requires Within(script, RecvCapacity)
    ensures Fitting(script.chunks) == |script.chunks|
    ensures ReadStep(t, fd, script).flow != Fatal(BufferOverrun)
  {
  }

  /** Corrected, no snapshot entry stops at an overrun. */
  lemma {:induction false} DispatchAllNeverOverruns(t: Table, serverSock: int, snapshotSize: int, items: seq<PollFd>, r: Round, inPlace: bool)
    requires forall fd :: Within(r.recv(fd), RecvCapacity)
    ensures DispatchAll(t, serverSock, snapshotSize, items, r, inPlace).flow != Fatal(BufferOverrun)
    decreases |items|
  {
    if items != [] {
      var item := items[0];
      var o := DispatchStep(t, serverSock, snapshotSize, item, r, inPlace);
      if item.fd != serverSock && r.revents(item.fd) & POLLIN != 0 {
        CorrectedRecvNeverOverruns(t, item.fd, r.recv(item.fd));
      }
      if !o.flow.Fatal? {
        DispatchAllNeverOverruns(o.table, serverSock, snapshotSize, items[1..], r, inPlace);
      }
    }
  }

  /** Corrected, an iteration never ends at an overrun. */
  lemma RoundNeverOverruns(t: Table, serverSock: int, r: Round, inPlace: bool)
    requires forall fd :: Within(r.recv(fd), RecvCapacity)
    ensures RoundStep(t, serverSock, r, inPlace).end != Crash(BufferOverrun)
  {
    if r.timeout >= 1 && r.poll.PollReady? {
      var snap := Snapshot(t);
      DispatchAllNeverOverruns(t, serverSock, |snap|, snap, r, inPlace);
    }
  }

  /** No branch erases the entry of a handle other than its own: the
      accept branch only adds, every other branch erases at most its own. */
  lemma DispatchStepKeepsOthers(t: Table, serverSock: int, snapshotSize: int, item: PollFd, r: Round, inPlace: bool, fd: int)
    requires fd != item.fd && fd in t
    ensures fd in DispatchStep(t, serverSock, snapshotSize, item, r, inPlace).table
  {
    if fd != r.accept.ret {
      DispatchStepFrame(t, serverSock, snapshotSize, item, r, inPlace, fd);
    }
  }

  /** The entry of a snapshot handle is still there when its turn comes, so
      `connections.at` on the writable branch never throws. */
  lemma {:induction false} DispatchAllNeverMissing(t: Table, serverSock: int, snapshotSize: int, items: seq<PollFd>, r: Round, inPlace: bool)
    requires forall i, j :: 0 <= i < j < |items| ==> items[i].fd < items[j].fd
    requires forall i :: 0 <= i < |items| ==> items[i].fd in t
    ensures DispatchAll(t, serverSock, snapshotSize, items, r, inPlace).flow != Fatal(NoSuchConnection)
    decreases |items|
  {
    if items != [] {
      var item := items[0];
      var o := DispatchStep(t, serverSock, snapshotSize, item, r, inPlace);
      if !o.flow.Fatal? {
        var rest := items[1..];
        forall i | 0 <= i < |rest|
          ensures rest[i].fd in o.table
        {
          assert rest[i] == items[i + 1];
          DispatchStepKeepsOthers(t, serverSock, snapshotSize, item, r, inPlace, rest[i].fd);
        }
        DispatchAllNeverMissing(o.table, serverSock, snapshotSize, rest, r, inPlace);
      }
    }
  }

  /** No iteration ends with the writable branch's lookup throwing: every
      handle of the snapshot still has its entry when it is dispatched. */
  lemma RoundNeverMissing(t: Table, serverSock: int, r: Round, inPlace: bool)
    requires TableInv(t)
    ensures RoundStep(t, serverSock, r, inPlace).end != Crash(NoSuchConnection)
  {
    if r.timeout >= 1 && r.poll.PollReady? {
      var snap := Snapshot(t);
      SnapshotShape(t);
      DispatchAllNeverMissing(t, serverSock, |snap|, snap, r, inPlace);
      RoundDispatches(t, serverSock, r, inPlace);
    } else {
      RoundIdles(t, serverSock, r, inPlace);
    }
  }

  /** Nor does any later iteration. */
  lemma {:induction false} RunRoundsNeverMissing(t: Table, serverSock: int, rounds: seq<Round>, inPlace: bool)
    requires TableInv(t)
    ensures RunRounds(t, serverSock, rounds, inPlace).end != Crash(NoSuchConnection)
    decreases |rounds|
  {
    if rounds != [] {
      var o := RoundStep(t, serverSock, rounds[0], inPlace);
      RoundNeverMissing(t, serverSock, rounds[0], inPlace);
      RoundStepKeepsTable(t, serverSock, rounds[0], inPlace);
      if o.end.NextRound? {
        RunRoundsNeverMissing(o.table, serverSock, rounds[1..], inPlace);
      }
    }
  }

  /** So `start()` never throws from the writable branch's lookup. */
  lemma StartRunNeverMissing(t: Table, startup: StartupOutcome, rounds: seq<Round>, inPlace: bool)
    requires TableInv(t)
    ensures StartRun(t, startup, rounds, inPlace).result != Crashed(NoSuchConnection)
  {
    if startup.Listening? && startup.fd >= 1 {
      var fd := startup.fd;
      assert EntryOk(fd, Fresh(fd));
      RunRoundsNeverMissing(t[fd := Fresh(fd)], fd, rounds, inPlace);
    }
  }

  /** POLLHUP erases the entry, then calls OnData once with -1. */
  lemma HangUpEffects(t: Table, fd: int)
    ensures var o := HangUpStep(t, fd);
            && o.table == t - {fd} && o.events == [Data(fd, [], -1, None)] && o.flow == Proceed
  {
  }

  // ---------------------------------------------------------------------
  // Write

  /** An empty queue on POLLOUT clears only the POLLOUT bit: the entry keeps
      its queue and POLLIN, nothing else changes and no hook runs. */
  lemma EmptyQueueClearsPollOut(t: Table, fd: int, s: SendOutcome, inPlace: bool)
    requires TableInv(t) && fd in t && t[fd].out == []
    ensures var o := WriteStep(t, fd, s, inPlace);
            && o.table.Keys == t.Keys
            && o.table[fd] == t[fd].(info := t[fd].info.(events := POLLIN))
            && (forall other :: other in t && other != fd ==> o.table[other] == t[other])
            && o.events == [] && o.flow == Proceed
  {
    assert t[fd].info.events & !POLLOUT == POLLIN by {
      assert EntryOk(fd, t[fd]);
    }
  }

  /** A send covering the whole front request pops it, and only then calls
      its callback with the byte count (the callback sees the shorter queue);
      the requests behind keep their order. */
  lemma FullSendPopsThenNotifies(t: Table, fd: int, s: SendOutcome, inPlace: bool)
    requires fd in t && t[fd].out != []
    requires SendReturn(s, |t[fd].out[0].data|) == |t[fd].out[0].data|
    ensures var o := WriteStep(t, fd, s, inPlace);
            var q := t[fd].out;
            && o.table == t[fd := t[fd].(out := q[1..])]
            && o.events == Notify(q[0].callback, fd, q[0].outBytes + |q[0].data|, Some(|q| - 1))
            && o.flow == Proceed
  {
  }

  /** A failed send calls the front request's callback with the negative
      return and leaves the table, queue included, as it was. */
  lemma FailedSendKeepsQueue(t: Table, fd: int, inPlace: bool)
    requires fd in t && t[fd].out != []
    ensures var o := WriteStep(t, fd, SendError, inPlace);
            && o.table == t
            && o.events == Notify(t[fd].out[0].callback, fd, -1, Some(|t[fd].out|))
            && o.flow == Proceed
  {
  }

  /** A send of 0 bytes on a non-empty payload erases the entry without a
      callback and without an OnData call; other entries do not change. */
  lemma ZeroSendDropsEntry(t: Table, fd: int, inPlace: bool)
    requires fd in t && t[fd].out != [] && t[fd].out[0].data != []
    ensures var o := WriteStep(t, fd, SendRoom(0), inPlace);
            && o.table == t - {fd} && o.events == [] && o.flow == Proceed
  {
  }

  /** As written, a partial send changes nothing at all: the whole payload
      stays queued and goes out again from its first byte. */
  lemma PartialSendAsWrittenChangesNothing(t: Table, fd: int, s: SendOutcome)
    requires fd in t && t[fd].out != []
    requires 0 < SendReturn(s, |t[fd].out[0].data|) < |t[fd].out[0].data|
    ensures WriteStep(t, fd, s, false) == Outcome(t, [], Proceed)
  {
    var c := t[fd];
    assert t[fd := c] == t;
  }

  /** Corrected, a partial send leaves what it did not send at the front of
      the queue, with the cursor advanced, and calls no callback. */
  lemma PartialSendInPlaceAdvances(t: Table, fd: int, s: SendOutcome)
    requires fd in t && t[fd].out != []
    requires 0 < SendReturn(s, |t[fd].out[0].data|) < |t[fd].out[0].data|
    ensures var o := WriteStep(t, fd, s, true);
            var q := t[fd].out;
            var n := SendReturn(s, |q[0].data|);
            && o.table == t[fd := t[fd].(out := [q[0].(data := q[0].data[n..], outBytes := q[0].outBytes + n)] + q[1..])]
            && o.events == [] && o.flow == Proceed
  {
  }

  // ---------------------------------------------------------------------
  // Dispatch priority

  /** The callback calls among hook events, as (callback, value) pairs. */
  function CallbackCalls(evs: seq<HookEvent>): seq<Completed>
  {
    if evs == [] then []
    else (if evs[0].Completion? then [Completed(Some(evs[0].callback), evs[0].result)] else []) + CallbackCalls(evs[1..])
  }

  /** The calls of a Drain that reach a callback: requests without one are
      served silently. */
  function WithCallback(done: seq<Completed>): seq<Completed>
  {
    if done == [] then []
    else (if done[0].callback.Some? then [done[0]] else []) + WithCallback(done[1..])
  }

  /** A callback call is the pair its Drain entry records. */
  lemma CallsOfNotify(cb: Option<CallbackId>, fd: int, result: int, depth: Option<nat>)
    ensures CallbackCalls(Notify(cb, fd, result, depth)) == WithCallback([Completed(cb, result)])
  {
    assert [Completed(cb, result)][1..] == [];
    if cb.Some? {
      assert Notify(cb, fd, result, depth)[1..] == [];
    }
  }

  /** The writable branch is one step of Drain on the handle's queue: the
      same queue is left, the entry goes exactly when Drain reports the peer
      closed, and the callback calls are Drain's, less those of requests that
      have no callback. With DrainOneThenRest, successive POLLOUT
      notifications of a handle are one Drain of its queue. */
  lemma WriteStepDrainsOnce(t: Table, fd: int, s: SendOutcome, inPlace: bool)
    requires fd in t
    ensures var o := WriteStep(t, fd, s, inPlace);
            var d := Drain(t[fd].out, [s], inPlace);
            && o.flow == Proceed
            && (fd in o.table <==> !d.closed)
            && (fd in o.table ==> o.table[fd].out == d.queue)
            && CallbackCalls(o.events) == WithCallback(d.done)
  {
    var q := t[fd].out;
    var o := WriteStep(t, fd, s, inPlace);
    if q != [] {
      var ret := SendReturn(s, |q[0].data|);
      var step := SendFront(q, ret, inPlace);
      DrainSingle(q, s, inPlace);
      if step.SendFailed? {
        CallsOfNotify(q[0].callback, fd, step.ret, DepthIn(t, fd));
      } else if step.Progressed? && step.completed.Some? {
        CallsOfNotify(q[0].callback, fd, step.completed.value, DepthIn(o.table, fd));
      }
    } else {
      assert [s][1..] == [];
    }
  }


  /** At most one branch per snapshot entry: for a client, readable wins
      over writable, which wins over hang-up. */
  lemma DispatchPriority(t: Table, serverSock: int, snapshotSize: int, item: PollFd, r: Round, inPlace: bool)
    requires item.fd != serverSock
    ensures var ev := r.revents(item.fd);
            var o := DispatchStep(t, serverSock, snapshotSize, item, r, inPlace);
            && (ev & POLLIN != 0 ==> o == ReadStep(t, item.fd, r.recv(item.fd)))
            && (ev & POLLIN == 0 && ev & POLLOUT != 0 ==> o == WriteStep(t, item.fd, r.send(item.fd), inPlace))
            && (ev & POLLIN == 0 && ev & POLLOUT == 0 && ev & POLLHUP != 0 ==> o == HangUpStep(t, item.fd))
            && (ev & (POLLIN | POLLOUT | POLLHUP) == 0 ==> o == Outcome(t, [], Proceed))
  {
    var ev := r.revents(item.fd);
    if ev & (POLLIN | POLLOUT | POLLHUP) == 0 {
      assert ev & POLLIN == 0 && ev & POLLOUT == 0 && ev & POLLHUP == 0;
    }
  }

  /** The listening socket only ever takes the accept path: it never calls
      OnData or a callback, never removes or alters an entry other than the
      one the accepted handle gets, and adds at most that handle. */
  lemma ListenerOnlyAccepts(t: Table, serverSock: int, snapshotSize: int, item: PollFd, r: Round, inPlace: bool)
    requires item.fd == serverSock
    ensures var o := DispatchStep(t, serverSock, snapshotSize, item, r, inPlace);
            && o.table.Keys <= t.Keys + {r.accept.ret}
            && (forall fd :: fd in t ==> fd in o.table)
            && (forall fd :: fd in t && fd != r.accept.ret ==> o.table[fd] == t[fd])
            && (forall i :: 0 <= i < |o.events| ==> o.events[i].Opened?)
  {
  }

  // ---------------------------------------------------------------------
  // The table invariant

  lemma AcceptStepKeepsTable(t: Table, a: AcceptOutcome, snapshotSize: int)
    requires TableInv(t)
    ensures TableInv(AcceptStep(t, a, snapshotSize).table)
  {
  }

  lemma ReadStepKeepsTable(t: Table, fd: int, script: RecvScript)
    requires TableInv(t)
    ensures TableInv(ReadStep(t, fd, script).table)
  {
  }

  lemma WriteStepKeepsTable(t: Table, fd: int, s: SendOutcome, inPlace: bool)
    requires TableInv(t)
    ensures TableInv(WriteStep(t, fd, s, inPlace).table)
  {
    if fd in t {
      var c := t[fd];
      assert EntryOk(fd, c);
      var o := WriteStep(t, fd, s, inPlace);
      if c.out == [] {
        assert c.info.events & !POLLOUT == POLLIN;
        assert EntryOk(fd, o.table[fd]);
      } else {
        var ret := SendReturn(s, |c.out[0].data|);
        var step := SendFront(c.out, ret, inPlace);
        if step.Progressed? {
          var q := step.queue;
          forall i | 0 <= i < |q|
            ensures q[i].data != [] && q[i].outBytes >= 0
          {
            if step.completed.Some? {
              assert q[i] == c.out[i + 1];
            } else if i > 0 {
              assert q[i] == q[1..][i - 1] == c.out[1..][i - 1] == c.out[i];
            }
          }
          assert EntryOk(fd, o.table[fd]);
        }
      }
    }
  }

  lemma DispatchStepKeepsTable(t: Table, serverSock: int, snapshotSize: int, item: PollFd, r: Round, inPlace: bool)
    requires TableInv(t)
    ensures TableInv(DispatchStep(t, serverSock, snapshotSize, item, r, inPlace).table)
  {
    var ev := r.revents(item.fd);
    if item.fd == serverSock {
      AcceptStepKeepsTable(t, r.accept, snapshotSize);
    } else if ev & POLLIN != 0 {
      ReadStepKeepsTable(t, item.fd, r.recv(item.fd));
    } else if ev & POLLOUT != 0 {
      WriteStepKeepsTable(t, item.fd, r.send(item.fd), inPlace);
    }
  }

  lemma {:induction false} DispatchAllKeepsTable(t: Table, serverSock: int, snapshotSize: int, items: seq<PollFd>, r: Round, inPlace: bool)
    requires TableInv(t)
    ensures TableInv(DispatchAll(t, serverSock, snapshotSize, items, r, inPlace).table)
    decreases |items|
  {
    if items != [] {
      var o := DispatchStep(t, serverSock, snapshotSize, items[0], r, inPlace);
      DispatchStepKeepsTable(t, serverSock, snapshotSize, items[0], r, inPlace);
      if !o.flow.Fatal? {
        DispatchAllKeepsTable(o.table, serverSock, snapshotSize, items[1..], r, inPlace);
      }
    }
  }

  /** Every iteration of the loop keeps the table invariant. */
  lemma RoundStepKeepsTable(t: Table, serverSock: int, r: Round, inPlace: bool)
    requires TableInv(t)
    ensures TableInv(RoundStep(t, serverSock, r, inPlace).table)
  {
    if r.timeout >= 1 && r.poll.PollReady? {
      var snap := Snapshot(t);
      DispatchAllKeepsTable(t, serverSock, |snap|, snap, r, inPlace);
    }
  }

  lemma {:induction false} RunRoundsKeepsTable(t: Table, serverSock: int, rounds: seq<Round>, inPlace: bool)
    requires TableInv(t)
    ensures TableInv(RunRounds(t, serverSock, rounds, inPlace).table)
    decreases |rounds|
  {
    if rounds != [] {
      var o := RoundStep(t, serverSock, rounds[0], inPlace);
      RoundStepKeepsTable(t, serverSock, rounds[0], inPlace);
      if o.end.NextRound? {
        RunRoundsKeepsTable(o.table, serverSock, rounds[1..], inPlace);
      }
    }
  }

  // ---------------------------------------------------------------------
  // Entries are never resurrected

  /** Only an accept adds an entry: after a snapshot is dispatched, every
      handle in the table was there before or is the accepted one. */
  lemma {:induction false} DispatchAllOnlyAcceptAdds(t: Table, serverSock: int, snapshotSize: int, items: seq<PollFd>, r: Round, inPlace: bool)
    ensures DispatchAll(t, serverSock, snapshotSize, items, r, inPlace).table.Keys <= t.Keys + {r.accept.ret}
    decreases |items|
  {
    if items != [] {
      var o := DispatchStep(t, serverSock, snapshotSize, items[0], r, inPlace);
      assert o.table.Keys <= t.Keys + {r.accept.ret} by {
        var ev := r.revents(items[0].fd);
        if items[0].fd == serverSock {
          ListenerOnlyAccepts(t, serverSock, snapshotSize, items[0], r, inPlace);
        } else if ev & POLLIN == 0 && ev & POLLOUT != 0 {
          assert o == WriteStep(t, items[0].fd, r.send(items[0].fd), inPlace);
        }
      }
      if !o.flow.Fatal? {
        DispatchAllOnlyAcceptAdds(o.table, serverSock, snapshotSize, items[1..], r, inPlace);
      }
    }
  }

  // ---------------------------------------------------------------------
  // Teardown notifications

  /** The handle's step is the zero-byte send: writable but not readable,
      a non-empty front payload, and send returns 0. The entry is then erased
      with no OnData call. */
  predicate SilentDrop(c: Connection, fd: int, r: Round)
  {
    var ev := r.revents(fd);
    && ev & POLLIN == 0 && ev & POLLOUT != 0
    && c.out != [] && c.out[0].data != []
    && SendReturn(r.send(fd), |c.out[0].data|) == 0
  }

  /** How many teardown notifications (OnData with a length of at most 0)
      the events hold for a handle. */
  function Sentinels(evs: seq<HookEvent>, fd: int): nat
  {
    if evs == [] then 0
    else (if evs[0].Data? && evs[0].len <= 0 && evs[0].fd == fd then 1 else 0) + Sentinels(evs[1..], fd)
  }

  lemma {:induction false} SentinelsAppend(a: seq<HookEvent>, b: seq<HookEvent>, fd: int)
    ensures Sentinels(a + b, fd) == Sentinels(a, fd) + Sentinels(b, fd)
    decreases |a|
  {
    if a != [] {
      assert (a + b)[0] == a[0];
      assert (a + b)[1..] == a[1..] + b;
      SentinelsAppend(a[1..], b, fd);
    } else {
      assert a + b == b;
    }
  }

  lemma {:induction false} NoSentinels(evs: seq<HookEvent>, fd: int)
    requires forall i :: 0 <= i < |evs| ==> !IsSentinel(evs[i])
    ensures Sentinels(evs, fd) == 0
    decreases |evs|
  {
    if evs != [] {
      NoSentinels(evs[1..], fd);
    }
  }

  /** OnData calls for received bytes are never teardown notifications. */
  lemma DeliveredSentinels(fd: int, chunks: seq<Chunk>, depth: Option<nat>, tail: seq<HookEvent>, x: int)
    ensures Sentinels(ChunkEvents(fd, chunks, depth) + tail, x) == Sentinels(tail, x)
  {
    NoSentinels(ChunkEvents(fd, chunks, depth), x);
    SentinelsAppend(ChunkEvents(fd, chunks, depth), tail, x);
  }

  /** The read branch makes at most one teardown notification, for its own
      handle, and only once that handle has left the table; a handle it
      removes always gets it. */
  lemma ReadStepSentinels(t: Table, fd: int, script: RecvScript)
    ensures var o := ReadStep(t, fd, script);
            && (forall other :: other != fd ==> Sentinels(o.events, other) == 0)
            && Sentinels(o.events, fd) <= 1
            && (Sentinels(o.events, fd) == 1 ==> fd !in o.table)
            && (fd in t && fd !in o.table ==> Sentinels(o.events, fd) == 1)
  {
    var o := ReadStep(t, fd, script);
    var k := Fitting(script.chunks);
    var delivered := ChunkEvents(fd, script.chunks[..k], DepthIn(t, fd));
    if k < |script.chunks| || (script.end.RecvError? && (Transient(script.end.errno) || script.end.errno != ECONNRESET)) {
      assert o.events == delivered + [] && o.table == t;
      forall x ensures Sentinels(o.events, x) == 0 {
        DeliveredSentinels(fd, script.chunks[..k], DepthIn(t, fd), [], x);
      }
    } else {
      var td := TearDown(t, fd, if script.end.EndOfStream? then 0 else -2);
      assert o.events == delivered + td.events && o.table == t - {fd};
      forall x ensures Sentinels(o.events, x) == if x == fd then 1 else 0 {
        DeliveredSentinels(fd, script.chunks[..k], DepthIn(t, fd), td.events, x);
        assert td.events[1..] == [];
      }
    }
  }

  /** One snapshot entry makes at most one teardown notification, only for
      its own handle, and only once that handle has left the table. When it
      removes its handle, the notification is made, unless the removal is
      the zero-byte send. */
  lemma DispatchStepSentinels(t: Table, serverSock: int, snapshotSize: int, item: PollFd, r: Round, inPlace: bool)
    ensures var o := DispatchStep(t, serverSock, snapshotSize, item, r, inPlace);
            && (forall fd :: fd != item.fd ==> Sentinels(o.events, fd) == 0)
            && Sentinels(o.events, item.fd) <= 1
            && (Sentinels(o.events, item.fd) == 1 ==> item.fd !in o.table)
            && (item.fd in t && item.fd !in o.table && !SilentDrop(t[item.fd], item.fd, r) ==>
                  Sentinels(o.events, item.fd) == 1)
  {
    var o := DispatchStep(t, serverSock, snapshotSize, item, r, inPlace);
    var ev := r.revents(item.fd);
    if item.fd == serverSock || (ev & POLLIN == 0 && ev & POLLOUT != 0) {
      assert forall i :: 0 <= i < |o.events| ==> !IsSentinel(o.events[i]);
      forall fd ensures Sentinels(o.events, fd) == 0 {
        NoSentinels(o.events, fd);
      }
    } else if ev & POLLIN != 0 {
      ReadStepSentinels(t, item.fd, r.recv(item.fd));
    } else if ev & POLLHUP != 0 {
      assert o.events[1..] == [];
    }
  }

  /** A whole snapshot of distinct handles: at most one teardown
      notification per handle, and none for a handle not in the snapshot. */
  lemma {:induction false} DispatchAllSentinels(t: Table, serverSock: int, snapshotSize: int, items: seq<PollFd>, r: Round, inPlace: bool)
    requires forall i, j :: 0 <= i < j < |items| ==> items[i].fd < items[j].fd
    ensures forall fd :: Sentinels(DispatchAll(t, serverSock, snapshotSize, items, r, inPlace).events, fd) <= 1
    ensures forall fd :: (forall i :: 0 <= i < |items| ==> items[i].fd != fd) ==>
              Sentinels(DispatchAll(t, serverSock, snapshotSize, items, r, inPlace).events, fd) == 0
    decreases |items|
  {
    var all := DispatchAll(t, serverSock, snapshotSize, items, r, inPlace);
    if items != [] {
      var o := DispatchStep(t, serverSock, snapshotSize, items[0], r, inPlace);
      DispatchStepSentinels(t, serverSock, snapshotSize, items[0], r, inPlace);
      if !o.flow.Fatal? {
        var tail := items[1..];
        var rest := DispatchAll(o.table, serverSock, snapshotSize, tail, r, inPlace);
        assert all.events == o.events + rest.events;
        DispatchAllSentinels(o.table, serverSock, snapshotSize, tail, r, inPlace);
        forall fd
          ensures Sentinels(all.events, fd) <= 1
          ensures (forall i :: 0 <= i < |items| ==> items[i].fd != fd) ==> Sentinels(all.events, fd) == 0
        {
          SentinelsAppend(o.events, rest.events, fd);
          if fd == items[0].fd {
            forall i | 0 <= i < |tail|
              ensures tail[i].fd != fd
            {
              assert tail[i] == items[i + 1];
            }
          } else if forall i :: 0 <= i < |items| ==> items[i].fd != fd {
            forall i | 0 <= i < |tail|
              ensures tail[i].fd != fd
            {
              assert tail[i] == items[i + 1];
            }
          }
        }
      }
    }
  }

  /** Exactly-once teardown within an iteration: each handle gets at most
      one teardown notification, and only a handle that was in the table
      when the iteration began. */
  lemma RoundTearsDownAtMostOnce(t: Table, serverSock: int, r: Round, inPlace: bool)
    requires TableInv(t)
    ensures forall fd :: Sentinels(RoundStep(t, serverSock, r, inPlace).events, fd) <= 1
    ensures forall fd :: fd !in t ==> Sentinels(RoundStep(t, serverSock, r, inPlace).events, fd) == 0
  {
    if r.timeout >= 1 && r.poll.PollReady? {
      var snap := Snapshot(t);
      SnapshotShape(t);
      var d := DispatchAll(t, serverSock, |snap|, snap, r, inPlace);
      RoundDispatches(t, serverSock, r, inPlace);
      DispatchAllSentinels(t, serverSock, |snap|, snap, r, inPlace);
      forall fd
        ensures Sentinels([LoopCalled] + d.events, fd) <= 1
        ensures fd !in t ==> Sentinels([LoopCalled] + d.events, fd) == 0
      {
        SentinelsAfterLoopCalled(d.events, fd);
        if fd !in t {
          assert forall i :: 0 <= i < |snap| ==> snap[i].fd != fd;
        }
      }
    } else {
      RoundIdles(t, serverSock, r, inPlace);
      forall fd ensures Sentinels([LoopCalled], fd) == 0 {
        SentinelsAfterLoopCalled([], fd);
      }
    }
  }

  /** A snapshot entry leaves every other entry alone, except the one the
      accepted handle gets. */
  lemma DispatchStepFrame(t: Table, serverSock: int, snapshotSize: int, item: PollFd, r: Round, inPlace: bool, fd: int)
    requires fd != item.fd && fd != r.accept.ret
    ensures var o := DispatchStep(t, serverSock, snapshotSize, item, r, inPlace);
            && (fd in o.table <==> fd in t)
            && (fd in t ==> o.table[fd] == t[fd])
  {
    var ev := r.revents(item.fd);
    if item.fd != serverSock && ev & POLLIN != 0 {
      ReadStepEffects(t, item.fd, r.recv(item.fd));
    }
  }

  /** Dispatching handles other than `fd` (and not accepting it) leaves the
      entry of `fd` as it was. */
  lemma {:induction false} DispatchAllFrame(t: Table, serverSock: int, snapshotSize: int, items: seq<PollFd>, r: Round, inPlace: bool, fd: int)
    requires fd != r.accept.ret
    requires forall i :: 0 <= i < |items| ==> items[i].fd != fd
    ensures var o := DispatchAll(t, serverSock, snapshotSize, items, r, inPlace);
            && (fd in o.table <==> fd in t)
            && (fd in t ==> o.table[fd] == t[fd])
    decreases |items|
  {
    if items != [] {
      var o := DispatchStep(t, serverSock, snapshotSize, items[0], r, inPlace);
      DispatchStepFrame(t, serverSock, snapshotSize, items[0], r, inPlace, fd);
      if !o.flow.Fatal? {
        var tail := items[1..];
        forall i | 0 <= i < |tail|
          ensures tail[i].fd != fd
        {
          assert tail[i] == items[i + 1];
        }
        DispatchAllFrame(o.table, serverSock, snapshotSize, tail, r, inPlace, fd);
      }
    }
  }

  /** Over a snapshot of distinct handles, a handle that leaves the table
      gets a teardown notification, unless the zero-byte send erased it. */
  lemma {:induction false} DispatchAllNotifiesRemoved(t: Table, serverSock: int, snapshotSize: int, items: seq<PollFd>, r: Round, inPlace: bool)
    requires forall i, j :: 0 <= i < j < |items| ==> items[i].fd < items[j].fd
    ensures var o := DispatchAll(t, serverSock, snapshotSize, items, r, inPlace);
            forall fd :: fd in t && fd !in o.table && fd != r.accept.ret && !SilentDrop(t[fd], fd, r) ==>
              Sentinels(o.events, fd) >= 1
    decreases |items|
  {
    var all := DispatchAll(t, serverSock, snapshotSize, items, r, inPlace);
    if items != [] {
      var o := DispatchStep(t, serverSock, snapshotSize, items[0], r, inPlace);
      DispatchStepSentinels(t, serverSock, snapshotSize, items[0], r, inPlace);
      if o.flow.Fatal? {
        forall fd | fd in t && fd !in all.table && fd != r.accept.ret && !SilentDrop(t[fd], fd, r)
          ensures Sentinels(all.events, fd) >= 1
        {
          if fd != items[0].fd {
            DispatchStepFrame(t, serverSock, snapshotSize, items[0], r, inPlace, fd);
          }
        }
      } else {
        var tail := items[1..];
        var rest := DispatchAll(o.table, serverSock, snapshotSize, tail, r, inPlace);
        assert all.events == o.events + rest.events && all.table == rest.table;
        DispatchAllNotifiesRemoved(o.table, serverSock, snapshotSize, tail, r, inPlace);
        forall fd | fd in t && fd !in all.table && fd != r.accept.ret && !SilentDrop(t[fd], fd, r)
          ensures Sentinels(all.events, fd) >= 1
        {
          SentinelsAppend(o.events, rest.events, fd);
          if fd == items[0].fd {
            forall i | 0 <= i < |tail|
              ensures tail[i].fd != fd
            {
              assert tail[i] == items[i + 1];
            }
            DispatchAllFrame(o.table, serverSock, snapshotSize, tail, r, inPlace, fd);
            assert fd !in o.table;
          } else {
            DispatchStepFrame(t, serverSock, snapshotSize, items[0], r, inPlace, fd);
          }
        }
      }
    }
  }

  /** An iteration that polled dispatches the snapshot after OnLoop. */
  lemma RoundDispatches(t: Table, serverSock: int, r: Round, inPlace: bool)
    requires r.timeout >= 1 && r.poll.PollReady?
    ensures var snap := Snapshot(t);
            var d := DispatchAll(t, serverSock, |snap|, snap, r, inPlace);
            var o := RoundStep(t, serverSock, r, inPlace);
            && o.table == d.table && o.events == [LoopCalled] + d.events
            && o.end == if d.flow.Fatal? then Crash(d.flow.cause) else NextRound
  {
  }

  /** An iteration that did not poll, or whose poll reported nothing to
      dispatch, makes only the OnLoop call and leaves the table alone. */
  lemma RoundIdles(t: Table, serverSock: int, r: Round, inPlace: bool)
    requires !(r.timeout >= 1 && r.poll.PollReady?)
    ensures var o := RoundStep(t, serverSock, r, inPlace);
            && o.table == t && o.events == [LoopCalled]
            && (o.end.Crash? ==> o.end.cause.PollFailed?)
  {
  }

  // Sequence algebra only, to keep the solver's work small; models nothing.
  lemma SentinelsAfterLoopCalled(evs: seq<HookEvent>, fd: int)
    ensures Sentinels([LoopCalled] + evs, fd) == Sentinels(evs, fd)
  {
    assert ([LoopCalled] + evs)[1..] == evs;
  }

  /** Exactly-once teardown, the other half: within an iteration, every
      handle that leaves the table gets exactly one teardown notification,
      except one erased by the zero-byte send or equal to the handle in the
      iteration's accept outcome. */
  lemma RoundNotifiesEveryRemoval(t: Table, serverSock: int, r: Round, inPlace: bool)
    requires TableInv(t)
    ensures var o := RoundStep(t, serverSock, r, inPlace);
            forall fd :: fd in t && fd !in o.table && fd != r.accept.ret && !SilentDrop(t[fd], fd, r) ==>
              Sentinels(o.events, fd) == 1
  {
    if r.timeout >= 1 && r.poll.PollReady? {
      var snap := Snapshot(t);
      SnapshotShape(t);
      var d := DispatchAll(t, serverSock, |snap|, snap, r, inPlace);
      RoundDispatches(t, serverSock, r, inPlace);
      DispatchAllNotifiesRemoved(t, serverSock, |snap|, snap, r, inPlace);
      DispatchAllSentinels(t, serverSock, |snap|, snap, r, inPlace);
      forall fd | fd in t && fd !in d.table && fd != r.accept.ret && !SilentDrop(t[fd], fd, r)
        ensures Sentinels([LoopCalled] + d.events, fd) == 1
      {
        SentinelsAfterLoopCalled(d.events, fd);
      }
    }
  }

  // ---------------------------------------------------------------------
  // The listening socket

  /** The listening socket is never torn down: no branch erases it. */
  lemma {:induction false} DispatchAllKeepsListener(t: Table, serverSock: int, snapshotSize: int, items: seq<PollFd>, r: Round, inPlace: bool)
    requires serverSock in t
    ensures serverSock in DispatchAll(t, serverSock, snapshotSize, items, r, inPlace).table
    decreases |items|
  {
    if items != [] {
      var o := DispatchStep(t, serverSock, snapshotSize, items[0], r, inPlace);
      var ev := r.revents(items[0].fd);
      if items[0].fd != serverSock && ev & POLLIN == 0 && ev & POLLOUT != 0 {
        assert o == WriteStep(t, items[0].fd, r.send(items[0].fd), inPlace);
      }
      assert serverSock in o.table;
      if !o.flow.Fatal? {
        DispatchAllKeepsListener(o.table, serverSock, snapshotSize, items[1..], r, inPlace);
      }
    }
  }

  lemma {:induction false} RunRoundsKeepsListener(t: Table, serverSock: int, rounds: seq<Round>, inPlace: bool)
    requires serverSock in t
    ensures serverSock in RunRounds(t, serverSock, rounds, inPlace).table
    decreases |rounds|
  {
    if rounds != [] {
      var r := rounds[0];
      var o := RoundStep(t, serverSock, r, inPlace);
      if r.timeout >= 1 && r.poll.PollReady? {
        var snap := Snapshot(t);
        DispatchAllKeepsListener(t, serverSock, |snap|, snap, r, inPlace);
      }
      if o.end.NextRound? {
        RunRoundsKeepsListener(o.table, serverSock, rounds[1..], inPlace);
      }
    }
  }

  /** A started server keeps its table invariant and its listening entry
      for as long as it runs; a handle below 1 is refused without touching
      anything. */
  lemma StartRunKeepsTable(t: Table, startup: StartupOutcome, rounds: seq<Round>, inPlace: bool)
    requires TableInv(t)
    ensures var run := StartRun(t, startup, rounds, inPlace);
            && TableInv(run.table)
            && (startup.Listening? && startup.fd >= 1 ==> startup.fd in run.table && run.result != NotStarted)
            && (run.result == NotStarted <==> startup.Listening? && startup.fd < 1)
            && (run.result == NotStarted ==> run.table == t && run.events == [])
  {
    if startup.Listening? && startup.fd >= 1 {
      var t' := t[startup.fd := Fresh(startup.fd)];
      assert EntryOk(startup.fd, Fresh(startup.fd));
      assert TableInv(t');
      RunRoundsKeepsTable(t', startup.fd, rounds, inPlace);
      RunRoundsKeepsListener(t', startup.fd, rounds, inPlace);
    }
  }

  /** Stopping: an OnLoop return below 1 ends the loop before any poll, with
      nothing changed; a timed-out or interrupted poll changes nothing and
      only OnLoop was called. */
  lemma QuietRounds(t: Table, serverSock: int, r: Round, inPlace: bool)
    ensures r.timeout < 1 ==> RoundStep(t, serverSock, r, inPlace) == RoundOutcome(t, [LoopCalled], Stop)
    ensures r.timeout >= 1 && (r.poll == PollTimeout || r.poll == PollError(EINTR)) ==>
              RoundStep(t, serverSock, r, inPlace) == RoundOutcome(t, [LoopCalled], NextRound)
  {
  }

  // ---------------------------------------------------------------------
  // Unfolding the loops one step at a time

  /** Events already made, in front of what is still to come. */
  function Prepend(evs: seq<HookEvent>, o: Outcome): Outcome
  {
    Outcome(o.table, evs + o.events, o.flow)
  }

  // Sequence algebra only, to keep the solver's work small; models nothing.
  lemma EventsAssoc(a: seq<HookEvent>, b: seq<HookEvent>, c: seq<HookEvent>)
    ensures (a + b) + c == a + (b + c)
  {
  }

  lemma PrependTwice(a: seq<HookEvent>, b: seq<HookEvent>, o: Outcome)
    ensures Prepend(a, Prepend(b, o)) == Prepend(a + b, o)
  {
    assert a + (b + o.events) == (a + b) + o.events;
  }

  /** The dispatch of a snapshot from position i is the step at i followed,
      unless it escaped, by the dispatch from i + 1. */
  lemma DispatchAllFrom(t: Table, serverSock: int, snapshotSize: int, items: seq<PollFd>, i: int, r: Round, inPlace: bool)
    requires 0 <= i < |items|
    ensures var step := DispatchStep(t, serverSock, snapshotSize, items[i], r, inPlace);
            DispatchAll(t, serverSock, snapshotSize, items[i..], r, inPlace)
            == if step.flow.Fatal? then step
               else Prepend(step.events, DispatchAll(step.table, serverSock, snapshotSize, items[i + 1..], r, inPlace))
  {
    assert items[i..][0] == items[i] && items[i..][1..] == items[i + 1..];
  }

  /** One turn of the dispatch loop: what has been dispatched so far,
      followed by the step at i, followed by the rest, is the whole. */
  lemma DispatchLoopStep(whole: Outcome, emitted: seq<HookEvent>, t: Table, serverSock: int, items: seq<PollFd>, i: int, r: Round, step: Outcome, inPlace: bool)
    requires 0 <= i < |items|
    requires whole == Prepend(emitted, DispatchAll(t, serverSock, |items|, items[i..], r, inPlace))
    requires step == DispatchStep(t, serverSock, |items|, items[i], r, inPlace)
    ensures step.flow.Fatal? ==> whole == Prepend(emitted, step)
    ensures !step.flow.Fatal? ==>
              whole == Prepend(emitted + step.events, DispatchAll(step.table, serverSock, |items|, items[i + 1..], r, inPlace))
  {
    DispatchAllFrom(t, serverSock, |items|, items, i, r, inPlace);
    if !step.flow.Fatal? {
      PrependTwice(emitted, step.events, DispatchAll(step.table, serverSock, |items|, items[i + 1..], r, inPlace));
    }
  }

  /** The dispatch loop has run to the end. */
  lemma DispatchLoopDone(whole: Outcome, emitted: seq<HookEvent>, t: Table, serverSock: int, items: seq<PollFd>, r: Round, inPlace: bool)
    requires whole == Prepend(emitted, DispatchAll(t, serverSock, |items|, items[|items|..], r, inPlace))
    ensures whole == Outcome(t, emitted, Proceed)
  {
    assert items[|items|..] == [];
  }

  /** Iterations already run, in front of what is still to come. */
  function PrependRound(evs: seq<HookEvent>, o: RoundOutcome): RoundOutcome
  {
    RoundOutcome(o.table, evs + o.events, o.end)
  }

  lemma PrependRoundTwice(a: seq<HookEvent>, b: seq<HookEvent>, o: RoundOutcome)
    ensures PrependRound(a, PrependRound(b, o)) == PrependRound(a + b, o)
  {
    assert a + (b + o.events) == (a + b) + o.events;
  }

  lemma RunRoundsFrom(t: Table, serverSock: int, rounds: seq<Round>, i: int, inPlace: bool)
    requires 0 <= i < |rounds|
    ensures var step := RoundStep(t, serverSock, rounds[i], inPlace);
            RunRounds(t, serverSock, rounds[i..], inPlace)
            == if !step.end.NextRound? then step
               else PrependRound(step.events, RunRounds(step.table, serverSock, rounds[i + 1..], inPlace))
  {
    assert rounds[i..][0] == rounds[i] && rounds[i..][1..] == rounds[i + 1..];
  }

  /** One turn of the event loop: the iterations so far, the one at i, and
      the rest make up the whole run. */
  lemma RunLoopStep(whole: RoundOutcome, emitted: seq<HookEvent>, t: Table, serverSock: int, rounds: seq<Round>, i: int, step: RoundOutcome, inPlace: bool)
    requires 0 <= i < |rounds|
    requires whole == PrependRound(emitted, RunRounds(t, serverSock, rounds[i..], inPlace))
    requires step == RoundStep(t, serverSock, rounds[i], inPlace)
    ensures !step.end.NextRound? ==> whole == PrependRound(emitted, step)
    ensures step.end.NextRound? ==>
              whole == PrependRound(emitted + step.events, RunRounds(step.table, serverSock, rounds[i + 1..], inPlace))
  {
    RunRoundsFrom(t, serverSock, rounds, i, inPlace);
    if step.end.NextRound? {
      PrependRoundTwice(emitted, step.events, RunRounds(step.table, serverSock, rounds[i + 1..], inPlace));
    }
  }

  lemma RunLoopDone(whole: RoundOutcome, emitted: seq<HookEvent>, t: Table, serverSock: int, rounds: seq<Round>, inPlace: bool)
    requires whole == PrependRound(emitted, RunRounds(t, serverSock, rounds[|rounds|..], inPlace))
    ensures whole == RoundOutcome(t, emitted, NextRound)
  {
    assert rounds[|rounds|..] == [];
  }
}
