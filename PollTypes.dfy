/**
  Values shared by the whole model of the `poll_server` reactor: the entries
  of its connection table, the hook invocations it makes, and the outcomes of
  the system calls (poll, accept, recv, send), which the model takes as inputs.
*/
module PollTypes {

  newtype Byte = b: int | 0 <= b < 256

  datatype Option<T> = None | Some(value: T)

  /** Size of the receive scratch buffer `char buf[512]` of `start()`. */
  const BufSize: nat := 512

  /** The largest recv length for which the terminator written at index
      `ret` stays inside the buffer: one less than its size. */
  const RecvCapacity: nat := BufSize - 1

  /** The backlog of `start()`, also the admission bound on the poll snapshot. */
  const Backlog: int := 128

  /** Bits of `pollfd.events` / `pollfd.revents` (a C `short`), Linux values. */
  const POLLIN: bv16 := 0x001
  const POLLOUT: bv16 := 0x004
  const POLLHUP: bv16 := 0x010

  /** A completion callback stored with a write request, named by an id. */
  type CallbackId = nat

  /** `struct pollfd`: the handle, the interest mask and the ready mask. */
  datatype PollFd = PollFd(fd: int, events: bv16, revents: bv16)

  /** `WriteRequest`: the payload still to send, the optional callback and
      the count of bytes of this request already sent. */
  datatype WriteRequest = WriteRequest(data: seq<Byte>, callback: Option<CallbackId>, outBytes: int)

  /** `connection`: the pollfd kept for the snapshot and the FIFO write queue
      (front at index 0). */
  datatype Connection = Connection(info: PollFd, out: seq<WriteRequest>)

  /** A freshly registered handle: interested in POLLIN only, empty queue. */
  function Fresh(fd: int): (c: Connection)
    ensures c.info.fd == fd && c.info.events == POLLIN && c.out == []
  {
    Connection(PollFd(fd, POLLIN, 0), [])
  }

  /** The errno classes the reactor distinguishes. */
  datatype Errno = EAGAIN | EWOULDBLOCK | EINTR | ECONNRESET | OtherErrno(code: int)

  /** would-block or interrupted: the failure is ignored in place. */
  predicate Transient(e: Errno)
  {
    e.EAGAIN? || e.EWOULDBLOCK? || e.EINTR?
  }

  /** One invocation of a host hook or of a write request's callback. `depth`
      is what a zero-length `write(fd, "")` made inside the hook would return:
      the queue length of `fd`, or None when `fd` has no table entry (the call
      would throw). */
  datatype HookEvent =
    | LoopCalled
    | Opened(fd: int, depth: Option<nat>)
    | Data(fd: int, bytes: seq<Byte>, len: int, depth: Option<nat>)
    | Completion(callback: CallbackId, fd: int, result: int, depth: Option<nat>)

  /** A data-hook call with a length of at most 0: the teardown notification. */
  predicate IsSentinel(e: HookEvent)
  {
    e.Data? && e.len <= 0
  }

  /** One positive recv result into `buf`: between 1 and BufSize bytes. */
  type Chunk = s: seq<Byte> | 0 < |s| <= BufSize witness [0]

  /** How the recv loop ends: end of stream (0) or -1 with an errno. */
  datatype RecvEnd = EndOfStream | RecvError(errno: Errno)

  /** What the recv calls of one readable notification return, in order. */
  datatype RecvScript = RecvScript(chunks: seq<Chunk>, end: RecvEnd)

  /** Every recv returned at most `n` bytes, as a recv asked for `n` does. */
  predicate Within(script: RecvScript, n: nat)
  {
    forall i :: 0 <= i < |script.chunks| ==> |script.chunks[i]| <= n
  }

  /** What one send call meets: an error (-1), or room for `room` bytes. */
  datatype SendOutcome = SendError | SendRoom(room: nat)

  /** One accept call: its return value, errno when it failed, and whether
      switching the new handle to non-blocking mode succeeded. */
  datatype AcceptOutcome = AcceptOutcome(ret: int, errno: Errno, nonBlockingOk: bool)

  /** The return of poll: a positive count, 0 (timeout) or -1 with errno. */
  datatype PollOutcome = PollReady | PollTimeout | PollError(errno: Errno)

  /** Everything one iteration of the event loop consumes: OnLoop's return,
      poll's return, the ready mask poll reports per handle, and the results
      of accept, recv and send per handle. */
  datatype Round = Round(
    timeout: int,
    poll: PollOutcome,
    revents: int -> bv16,
    accept: AcceptOutcome,
    recv: int -> RecvScript,
    send: int -> SendOutcome)

  /** The exceptions that escape `start()`, and BufferOverrun: the write of
      the terminator one past the end of `buf`, undefined behaviour in C++,
      at which the model stops. */
  datatype FatalCause =
    | SetupFailed
    | PollFailed(pollErrno: Errno)
    | AcceptFailed(acceptErrno: Errno)
    | NonBlockingFailed
    | RecvFailed(recvErrno: Errno)
    | BufferOverrun
    | NoSuchConnection

  /** Whether dispatch goes on with the next handle or an exception escapes. */
  datatype Flow = Proceed | Fatal(cause: FatalCause)
}
