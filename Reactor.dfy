/**
  The `poll_server` object: its connection table, updated in place by the
  public `write` overloads and by the event loop of `start()`, and the
  sequence of hook calls it has made. Every method is proved to do what the
  matching function of EventDispatch or ConnectionTable says.
*/
module Reactor {
  import opened PollTypes
  import opened WriteQueue
  import opened ConnectionTable
  import opened EventDispatch

  class PollServer {
    /** How a partial send updates the front request: false is the code as
        written, which updates a copy (`auto r = q.front()`); true is the
        corrected update through a reference. */
    const inPlace: bool
    /** `std::map<int, connection> connections`. */
    var connections: Table
    /** The hook and callback calls made so far, in order. */
    var trace: seq<HookEvent>

    ghost predicate Valid()
      reads this
    {
      TableInv(connections)
    }

    /** A new server: no connection, no hook call yet. */
    constructor(inPlace: bool)
      ensures this.inPlace == inPlace
      ensures connections == map[] && trace == []
      ensures Valid()
    {
      this.inPlace := inPlace;
      connections := map[];
      trace := [];
    }

    /** `write(fd, data, cb)`. */
    method Write(fd: int, data: seq<Byte>, cb: Option<CallbackId>) returns (r: WriteResult)
      modifies this
      ensures var e := Enqueue(old(connections), fd, data, cb);
              connections == e.table && r == e.result
      ensures trace == old(trace)
      ensures old(Valid()) ==> Valid()
    {
      if Valid() {
        EnqueueKeepsTable(connections, fd, data, cb);
      }
      if fd !in connections {
        return WriteFailed(OutOfRange);
      }
      var c := connections[fd];
      if |data| <= 0 {
        return Queued(|c.out|);
      }
      c := Connection(c.info.(events := c.info.events | POLLOUT), c.out + [WriteRequest(data, cb, 0)]);
      connections := connections[fd := c];
      r := Queued(|c.out|);
    }

    /** `write(fd, data, len, cb)`: the first `len` bytes of `data`. A
        negative length makes the string constructor throw before the table
        is consulted. The caller must supply at least `len` bytes. */
    method WriteRaw(fd: int, data: seq<Byte>, len: int, cb: Option<CallbackId>) returns (r: WriteResult)
      requires len <= |data|
      modifies this
      ensures len < 0 ==> r == WriteFailed(LengthError) && connections == old(connections)
      ensures len >= 0 ==>
                var e := Enqueue(old(connections), fd, data[..len], cb);
                connections == e.table && r == e.result
      ensures trace == old(trace)
      ensures old(Valid()) ==> Valid()
    {
      if len < 0 {
        return WriteFailed(LengthError);
      }
      r := Write(fd, data[..len], cb);
    }

    /** The rebuild of `pollfds` at the top of each iteration: one copy of
        each entry's `pollfd`, in the ascending order of the map. */
    method RebuildSnapshot() returns (pollfds: seq<PollFd>)
      requires Valid()
      ensures pollfds == Snapshot(connections)
      ensures |pollfds| == |connections|
    {
      var t := connections;
      pollfds := [];
      var remaining := t.Keys;
      SnapshotSoFarStart(t);
      while remaining != {}
        invariant SnapshotSoFar(pollfds, remaining, t)
        decreases |remaining|
      {
        MinExists(remaining);
        var m :| m in remaining && forall k :: k in remaining ==> m <= k;
        SnapshotSoFarStep(pollfds, remaining, t, m);
        pollfds := pollfds + [t[m].info];
        remaining := remaining - {m};
      }
      SnapshotSoFarDone(pollfds, t);
      SnapshotShape(t);
    }

    /** The listening socket reported POLLIN. */
    method HandleAccept(a: AcceptOutcome, snapshotSize: int) returns (flow: Flow)
      modifies this
      ensures var o := AcceptStep(old(connections), a, snapshotSize);
              connections == o.table && trace == old(trace) + o.events && flow == o.flow
    {
      if a.ret < 1 {
        if a.errno == EAGAIN || a.errno == EWOULDBLOCK || a.errno == EINTR {
          return Proceed;
        }
        return Fatal(AcceptFailed(a.errno));
      }
      if !a.nonBlockingOk {
        return Fatal(NonBlockingFailed);
      }
      if snapshotSize < Backlog {
        connections := connections[a.ret := Connection(PollFd(a.ret, POLLIN, 0), [])];
        trace := trace + [Opened(a.ret, DepthIn(connections, a.ret))];
      } else {
        trace := trace + [Opened(-1, DepthIn(connections, -1))];
      }
      flow := Proceed;
    }

    /** A client reported POLLIN: the recv loop into the scratch buffer
        `buf`, one OnData call per positive recv with the bytes just
        received, then the handling of the return that ended the loop. A
        recv that fills `buf` would have its terminator written at index
        `buf.Length`: the method stops there with BufferOverrun. */
    method HandleReadable(buf: array<Byte>, fd: int, script: RecvScript) returns (flow: Flow)
      requires buf.Length == BufSize
      modifies this, buf
      ensures var o := ReadStep(old(connections), fd, script);
              connections == o.table && trace == old(trace) + o.events && flow == o.flow
    {
      ghost var depth := DepthIn(connections, fd);
      var i := 0;
      while i < |script.chunks|
        invariant 0 <= i <= |script.chunks|
        invariant forall j :: 0 <= j < i ==> |script.chunks[j]| < BufSize
        invariant connections == old(connections)
        invariant trace == old(trace) + ChunkEvents(fd, script.chunks[..i], depth)
      {
        var chunk := script.chunks[i];
        var ret := |chunk|;
        forall k | 0 <= k < ret {
          buf[k] := chunk[k];
        }
        if ret >= buf.Length {
          assert Fitting(script.chunks) == i;
          return Fatal(BufferOverrun);
        }
        buf[ret] := 0;
        assert buf[..ret] == chunk;
        trace := trace + [Data(fd, buf[..ret], ret, DepthIn(connections, fd))];
        assert ChunkEvents(fd, script.chunks[..i + 1], depth)
            == ChunkEvents(fd, script.chunks[..i], depth) + [Data(fd, chunk, ret, depth)];
        i := i + 1;
      }
      assert Fitting(script.chunks) == i;
      assert script.chunks[..i] == script.chunks;
      flow := Proceed;
      match script.end {
        case EndOfStream =>
          connections := connections - {fd};
          trace := trace + [Data(fd, [], 0, DepthIn(connections, fd))];
        case RecvError(e) =>
          if e == EAGAIN || e == EWOULDBLOCK || e == EINTR {
          } else if e == ECONNRESET {
            connections := connections - {fd};
            trace := trace + [Data(fd, [], -2, DepthIn(connections, fd))];
          } else {
            flow := Fatal(RecvFailed(e));
          }
      }
    }

    /** A client reported POLLOUT (and not POLLIN). A missing entry
        throws; an empty queue loses its POLLOUT interest; otherwise one
        send of the front request. */
    method HandleWritable(fd: int, s: SendOutcome) returns (flow: Flow)
      modifies this
      ensures var o := WriteStep(old(connections), fd, s, inPlace);
              connections == o.table && trace == old(trace) + o.events && flow == o.flow
    {
      if fd !in connections {
        return Fatal(NoSuchConnection);
      }
      var c := connections[fd];
      if c.out == [] {
        connections := connections[fd := ClearWritable(c)];
        return Proceed;
      }
      SendFrontRequest(fd, s);
      flow := Proceed;
    }

    /** One send of the front request of a non-empty queue, made on a copy
        `r` of it. In place, a partial send stores the rest of the payload,
        with its advanced byte count, back at the front of the queue; as
        written the copy is dropped and the queue is left as it was. */
    method SendFrontRequest(fd: int, s: SendOutcome)
      requires fd in connections && connections[fd].out != []
      modifies this
      ensures var o := SendStep(old(connections), fd, s, inPlace);
              connections == o.table && trace == old(trace) + o.events
    {
      var t := connections;
      var c := t[fd];
      var r := c.out[0];
      var bytesSent := SendReturn(s, |r.data|);
      if bytesSent < 0 {
        if r.callback.Some? {
          trace := trace + [Completion(r.callback.value, fd, bytesSent, DepthIn(t, fd))];
        }
      } else if bytesSent > 0 || bytesSent == |r.data| {
        r := r.(outBytes := r.outBytes + bytesSent, data := r.data[bytesSent..]);
        if r.data == [] {
          connections := t[fd := c.(out := c.out[1..])];
          if r.callback.Some? {
            trace := trace + [Completion(r.callback.value, fd, r.outBytes, DepthIn(connections, fd))];
          }
        } else if inPlace {
          connections := t[fd := c.(out := [r] + c.out[1..])];
        }
      } else {
        connections := t[fd := ClearWritable(c)] - {fd};
      }
    }

    /** A client reported POLLHUP only: erase, then OnData with -1. */
    method HandleHangUp(fd: int)
      modifies this
      ensures var o := HangUpStep(old(connections), fd);
              connections == o.table && trace == old(trace) + o.events
    {
      connections := connections - {fd};
      trace := trace + [Data(fd, [], -1, DepthIn(connections, fd))];
    }

    /** The body of the loop over `pollfds` for one entry. */
    method Dispatch(buf: array<Byte>, serverSock: int, snapshotSize: int, item: PollFd, r: Round) returns (flow: Flow)
      requires buf.Length == BufSize
      modifies this, buf
      ensures var o := DispatchStep(old(connections), serverSock, snapshotSize, item, r, inPlace);
              connections == o.table && trace == old(trace) + o.events && flow == o.flow
    {
      var ev := r.revents(item.fd);
      flow := Proceed;
      if item.fd == serverSock {
        if ev & POLLIN != 0 {
          flow := HandleAccept(r.accept, snapshotSize);
        }
      } else if ev & POLLIN != 0 {
        flow := HandleReadable(buf, item.fd, r.recv(item.fd));
      } else if ev & POLLOUT != 0 {
        flow := HandleWritable(item.fd, r.send(item.fd));
      } else if ev & POLLHUP != 0 {
        HandleHangUp(item.fd);
      }
    }

    /** One iteration of the event loop of `start()`. */
    method Iterate(buf: array<Byte>, serverSock: int, r: Round) returns (e: RoundEnd)
      requires Valid() && buf.Length == BufSize
      modifies this, buf
      ensures var o := RoundStep(old(connections), serverSock, r, inPlace);
              connections == o.table && trace == old(trace) + o.events && e == o.end
      ensures Valid()
    {
      RoundStepKeepsTable(connections, serverSock, r, inPlace);
      trace := trace + [LoopCalled];
      var n := r.timeout;
      if n < 1 {
        return Stop;
      }
      var pollfds := RebuildSnapshot();
      match r.poll {
        case PollTimeout =>
          return NextRound;
        case PollError(err) =>
          if err == EINTR {
            return NextRound;
          }
          return Crash(PollFailed(err));
        case PollReady =>
      }
      ghost var o := DispatchAll(connections, serverSock, |pollfds|, pollfds, r, inPlace);
      var flow := DispatchSnapshot(buf, serverSock, pollfds, r);
      EventsAssoc(old(trace), [LoopCalled], o.events);
      e := if flow.Fatal? then Crash(flow.cause) else NextRound;
    }

    /** The loop over `pollfds`: each entry in turn, until an exception
        escapes. */
    method DispatchSnapshot(buf: array<Byte>, serverSock: int, pollfds: seq<PollFd>, r: Round) returns (flow: Flow)
      requires buf.Length == BufSize
      modifies this, buf
      ensures var o := DispatchAll(old(connections), serverSock, |pollfds|, pollfds, r, inPlace);
              connections == o.table && trace == old(trace) + o.events && flow == o.flow
    {
      ghost var whole := DispatchAll(connections, serverSock, |pollfds|, pollfds, r, inPlace);
      ghost var emitted: seq<HookEvent> := [];
      var i := 0;
      while i < |pollfds|
        invariant 0 <= i <= |pollfds|
        invariant trace == old(trace) + emitted
        invariant whole == Prepend(emitted, DispatchAll(connections, serverSock, |pollfds|, pollfds[i..], r, inPlace))
      {
        ghost var step := DispatchStep(connections, serverSock, |pollfds|, pollfds[i], r, inPlace);
        DispatchLoopStep(whole, emitted, connections, serverSock, pollfds, i, r, step, inPlace);
        flow := Dispatch(buf, serverSock, |pollfds|, pollfds[i], r);
        EventsAssoc(old(trace), emitted, step.events);
        if flow.Fatal? {
          return;
        }
        emitted := emitted + step.events;
        i := i + 1;
      }
      DispatchLoopDone(whole, emitted, connections, serverSock, pollfds, r, inPlace);
      flow := Proceed;
    }

    /** `start()`: a listening handle below 1 makes it return false; else
        the handle is registered and the loop runs, one iteration per
        element of `rounds`, until OnLoop asks to stop or an exception
        escapes. */
    method Start(startup: StartupOutcome, rounds: seq<Round>) returns (result: StartResult)
      requires Valid()
      modifies this
      ensures var run := StartRun(old(connections), startup, rounds, inPlace);
              connections == run.table && trace == old(trace) + run.events && result == run.result
      ensures Valid()
    {
      if startup.StartupFailed? {
        return Crashed(SetupFailed);
      }
      var serverSock := startup.fd;
      if serverSock < 1 {
        return NotStarted;
      }
      connections := connections[serverSock := Connection(PollFd(serverSock, POLLIN, 0), [])];
      assert EntryOk(serverSock, connections[serverSock]);
      var buf := new Byte[BufSize];
      var e := RunLoop(buf, serverSock, rounds);
      result := match e
        case NextRound => StillRunning
        case Stop => Stopped
        case Crash(c) => Crashed(c);
    }

    /** The `while (true)` loop of `start()`, one iteration per element of
        `rounds`, until OnLoop asks to stop or an exception escapes. */
    method RunLoop(buf: array<Byte>, serverSock: int, rounds: seq<Round>) returns (e: RoundEnd)
      requires Valid() && buf.Length == BufSize
      modifies this, buf
      ensures var o := RunRounds(old(connections), serverSock, rounds, inPlace);
              connections == o.table && trace == old(trace) + o.events && e == o.end
      ensures Valid()
    {
      ghost var whole := RunRounds(connections, serverSock, rounds, inPlace);
      ghost var emitted: seq<HookEvent> := [];
      var i := 0;
      while i < |rounds|
        invariant 0 <= i <= |rounds|
        invariant Valid()
        invariant trace == old(trace) + emitted
        invariant whole == PrependRound(emitted, RunRounds(connections, serverSock, rounds[i..], inPlace))
      {
        ghost var step := RoundStep(connections, serverSock, rounds[i], inPlace);
        RunLoopStep(whole, emitted, connections, serverSock, rounds, i, step, inPlace);
        e := Iterate(buf, serverSock, rounds[i]);
        EventsAssoc(old(trace), emitted, step.events);
        if !e.NextRound? {
          return;
        }
        emitted := emitted + step.events;
        i := i + 1;
      }
      RunLoopDone(whole, emitted, connections, serverSock, rounds, inPlace);
      e := NextRound;
    }
  }
}
