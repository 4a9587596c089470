# poll_server reactor, modelled and verified in Dafny

This project models the bookkeeping core of `poll_server` (poll.cpp). It is a
single-threaded reactor that multiplexes TCP connections over `poll(2)`. The
modelled parts are:

- the connection table `std::map<int, connection>`, where each entry holds a
  `pollfd` and a FIFO queue of `WriteRequest`s;
- the two public `write` overloads;
- the event loop of `start()`.

The loop is the part that carries the behaviour:
- it calls the `OnLoop` hook;
- it rebuilds the `pollfds` snapshot from the table;
- it polls;
- it dispatches each ready handle to one branch: accept, readable, writable
  or hang-up.

The system calls are inputs of the model, not behaviour it reproduces:
- `poll`, `accept`, `recv` and `send` become the `Round` record: the ready mask
  per handle, one accept outcome, a recv script per handle, a send outcome per
  handle, and errno classes;
- `startup` becomes a `StartupOutcome`.

Every call of `OnLoop`, `OnOpen`, `OnData` and of a write request's callback is
recorded in the `trace` as a `HookEvent`. Each event also records `depth`: what
a `write(fd, "")` made inside that hook would return. Depth is the queue
length, or `None` when the handle has no entry, in which case the call throws.
This makes "erased before OnData" and "popped before the callback" observable.

Modules:
- `PollTypes`: the records (`PollFd`, `WriteRequest`, `Connection`), the
  constants (`BufSize` 512, `Backlog` 128, the POLL bits as `bv16`), and the
  system-call outcomes.
- `WriteQueue`: one send on the front of a queue, the bytes still pending,
  and draining a queue over successive POLLOUT notifications.
- `ConnectionTable`: the entry invariant, `write` as a function on the
  table, and the poll snapshot in ascending handle order.
- `EventDispatch`: each branch of the loop, a whole snapshot, one
  iteration and `start()` as functions on the table. The lemmas about them
  live here too.
- `Reactor`: the class `PollServer`. Its fields `connections` and `trace`
  are updated in place. Its methods contain the source's loops, and each is
  proved equal to the matching function.

Each loop and dispatch function takes an `inPlace` flag, and the class holds
it as a constant. With `inPlace == false` a partial send updates a copy of the
front request, as the code is written. With `inPlace == true` the update goes
through a reference, which is the corrected program (see "## Findings"). A recv
script says what each `recv(item.fd, buf, sizeof(buf), 0)` returned. It may hold
a full 512-byte chunk, as the code's request size allows; the model then stops
where the terminator would be written past the array.

Behaviour of the code that the model keeps, which a reader of such a reactor
might not expect:
- End of stream tears the connection down at once. There is no half-closed
  state and no deferred teardown.
- A recv error other than would-block, EINTR or ECONNRESET throws out of
  `start()`. It does not tear the connection down.
- A failed send calls the request's callback with the negative value and
  keeps the queue as it was. There is no teardown.
- A zero-byte send clears POLLOUT and erases the entry. It pops nothing,
  closes nothing, and calls neither `OnData` nor the callback.
- The interest set comes from each entry's stored `events` mask. It is not
  recomputed.
- Admission compares the size of the poll snapshot (the listening socket
  included) with the backlog, not the number of connections.
- The teardown sentinels are 0 (end of stream), -2 (ECONNRESET) and -1
  (POLLHUP).

## Model

| member | source | states |
|---|---|---|
| PollTypes.Fresh | poll.cpp:143 | a freshly registered handle watches POLLIN only and has an empty queue |
| ConnectionTable.Enqueue | poll.cpp:122-132 | `write`: it fails iff the handle has no entry, changing nothing. An empty payload changes nothing and returns the current depth. Otherwise `{data, cb, 0}` is appended to that handle's queue only, POLLOUT is set on that handle only, and the old depth + 1 is returned |
| ConnectionTable.EnqueueKeepsTable | poll.cpp:124-131 | `write` preserves the entry invariant (POLLOUT set whenever the queue is non-empty, no empty payload queued) |
| ConnectionTable.EnqueueAppendsPending | poll.cpp:129 | after `write`, the handle's pending bytes are the old ones followed by the payload |
| ConnectionTable.EnqueueOwes | poll.cpp:125-129 | after `write` of a non-empty payload, the handle's queue owes its callback one more completion, of the payload's full length; an empty payload owes nothing new |
| ConnectionTable.SortedKeys | poll.cpp:159 | the table's handles in the map's iteration order: each exactly once, strictly ascending |
| ConnectionTable.SnapshotShape | poll.cpp:157-162 | the snapshot has one `pollfd` per entry, copied from its `info`, in ascending handle order |
| ConnectionTable.SnapshotUnique | poll.cpp:157-162 | any sequence with those properties is the snapshot |
| ConnectionTable.SnapshotSoFarStep | poll.cpp:159-162 | appending the least remaining entry keeps a partial snapshot sorted, copied from the table and complete up to what remains |
| ConnectionTable.SnapshotSoFarDone | poll.cpp:159-162 | a finished partial snapshot is the snapshot |
| WriteQueue.SendReturn | poll.cpp:266 | the value of `send`: -1 iff it failed, otherwise the lesser of the room and the payload size |
| WriteQueue.SendFront | poll.cpp:263-300 | one send on the front request: a failure iff the return is negative; the peer-closed path iff 0 bytes went out of a non-empty payload; completion iff the whole payload went out, which pops the request and reports bytes sent so far + payload length; the requests behind the front are untouched |
| WriteQueue.PendingAppend | poll.cpp:129 | enqueueing at the back adds the payload at the end of the pending bytes |
| WriteQueue.CopiedFrontResends | poll.cpp:265-293 | as written, a partial send leaves the queue unchanged, so the peer gets more bytes than were enqueued |
| WriteQueue.CopiedFrontExample | poll.cpp:265-293 | as written, "OK" sent one byte at a time puts "O", "O", "K" on the wire |
| WriteQueue.InPlaceSendConservesBytes | poll.cpp:276-293 | corrected: after any send that neither fails nor takes the zero-byte path, the bytes sent followed by the bytes still pending are exactly the bytes pending before |
| WriteQueue.SendKeepsAccounts | poll.cpp:276-293 | one send, by copy or in place, keeps the ledger: a completion pays the front entry, and the rest owes the rest |
| WriteQueue.DrainIsFifo | poll.cpp:259-307 | over any sequence of POLLOUT notifications, by copy or in place, every callback call is either -1 to the request then at the front (a failed send, which keeps it there) or that request's completion; the completions fire in enqueue order, each with its request's full length, and what is left still owes the remaining completions |
| WriteQueue.DrainOneThenRest | poll.cpp:259-307 | serving the first notification and then the rest from the queue it left is serving all of them, so one POLLOUT at a time composes to one drain |
| EventDispatch.WriteStepDrainsOnce | poll.cpp:259-307 | the writable branch is one drain step on the handle's queue: the same queue is left, the entry goes exactly when the drain reports the peer closed, and the callback calls are the drain's, less those of requests without a callback |
| WriteQueue.DrainConservesBytes | poll.cpp:259-307 | corrected: over any sequence of sends, the wire carries the enqueued bytes in order, with nothing lost or repeated |
| WriteQueue.TwoRequestsScenario | poll.cpp:259-307 | corrected: "OK\r\n" and "DONE\r\n" with room for 2, 5, then 6 bytes: both arrive in order, and the callbacks report 4 and 6 |
| WriteQueue.TwoRequestsAsWritten | poll.cpp:259-307 | as written, the same sends put "OK", then "OK\r\n", then "DONE\r\n" on the wire: the first two bytes twice. The callbacks still report 4 and 6, and the queue ends empty |
| EventDispatch.TearDown | poll.cpp:234-236 | the teardown erases the entry, then makes one OnData call with the sentinel, which sees the entry already gone |
| EventDispatch.AcceptAdmitsBelowBacklog | poll.cpp:197-210 | a successful accept is admitted iff the snapshot has fewer than 128 entries: a fresh POLLIN-only entry, then OnOpen(fd) with depth 0. Otherwise the table is unchanged and OnOpen(-1) is called |
| EventDispatch.AcceptErrors | poll.cpp:189-196 | a failed accept changes nothing and calls no hook; it is ignored iff errno is EAGAIN, EWOULDBLOCK or EINTR, and escapes otherwise |
| EventDispatch.ReadStepEffects | poll.cpp:222-258 | each positive recv before the first one that fills the 512-byte buffer reaches OnData in order. A recv that fills it stops at the overrun with the table unchanged and no further hook call. Otherwise end of stream and ECONNRESET erase the entry, then make one OnData call with 0 or -2. A transient errno leaves the table unchanged. Any other errno escapes. Other entries never change |
| EventDispatch.AsWrittenRecvOverruns | poll.cpp:147-228 | as written, one recv of `sizeof(buf)` bytes, which that request size allows, reaches the terminator write past the buffer before any OnData call |
| EventDispatch.CorrectedRecvNeverOverruns | poll.cpp:225-228 | when recv is asked for at most 511 bytes, every recv result reaches OnData and the read branch never overruns |
| EventDispatch.DispatchAllNeverOverruns | poll.cpp:180-320 | with recv asked for at most 511 bytes, no snapshot entry stops at an overrun |
| EventDispatch.DispatchAllNeverMissing | poll.cpp:180-262 | every handle of a sorted snapshot drawn from the table still has its entry when its turn comes, so the writable branch's `connections.at` never throws |
| EventDispatch.RoundNeverMissing | poll.cpp:261-262 | no iteration ends with the writable branch's lookup throwing |
| EventDispatch.RunRoundsNeverMissing | poll.cpp:149-321 | no run of iterations ends with that lookup throwing |
| EventDispatch.StartRunNeverMissing | poll.cpp:134-323 | `start()` never throws from that lookup: the entry exists, as the comment at poll.cpp:261 says it must |
| EventDispatch.RoundNeverOverruns | poll.cpp:149-320 | with recv asked for at most 511 bytes, no iteration ends at an overrun |
| EventDispatch.HangUpEffects | poll.cpp:308-314 | POLLHUP erases the entry, then calls OnData once with -1 |
| EventDispatch.EmptyQueueClearsPollOut | poll.cpp:302-306 | POLLOUT with an empty queue clears only the POLLOUT bit, changes nothing else and calls no hook |
| EventDispatch.FullSendPopsThenNotifies | poll.cpp:276-288 | a send covering the front request pops it; the callback then sees the shorter queue and gets the byte count; the rest of the queue keeps its order |
| EventDispatch.FailedSendKeepsQueue | poll.cpp:267-275 | a failed send calls the callback with -1 and leaves the table, queue included, as it was |
| EventDispatch.ZeroSendDropsEntry | poll.cpp:295-300 | a zero-byte send erases the entry with no callback and no OnData call; other entries are unchanged |
| EventDispatch.PartialSendAsWrittenChangesNothing | poll.cpp:265-293 | as written, a partial send changes neither the table nor the trace |
| EventDispatch.PartialSendInPlaceAdvances | poll.cpp:276-293 | corrected: a partial send leaves the unsent rest, with its byte count advanced, at the front and calls no callback |
| EventDispatch.DispatchPriority | poll.cpp:222-319 | for a client, readable wins over writable, which wins over hang-up; with none of these bits set, nothing happens |
| EventDispatch.ListenerOnlyAccepts | poll.cpp:183-220 | the listening socket only takes the accept path: it calls no OnData or callback, alters no entry except the accepted handle's, and adds at most that handle |
| EventDispatch.AcceptStepKeepsTable | poll.cpp:188-210 | accepting preserves the entry invariant |
| EventDispatch.ReadStepKeepsTable | poll.cpp:222-258 | the readable branch preserves the entry invariant |
| EventDispatch.WriteStepKeepsTable | poll.cpp:259-307 | the writable branch preserves the entry invariant, with the send applied by copy or in place |
| EventDispatch.DispatchStepKeepsTable | poll.cpp:180-320 | dispatching one snapshot entry preserves the entry invariant |
| EventDispatch.DispatchAllKeepsTable | poll.cpp:180-320 | dispatching a whole snapshot preserves the entry invariant |
| EventDispatch.RoundStepKeepsTable | poll.cpp:149-320 | every iteration of the loop preserves the entry invariant |
| EventDispatch.RunRoundsKeepsTable | poll.cpp:149-321 | any number of iterations preserve the entry invariant |
| EventDispatch.DispatchAllOnlyAcceptAdds | poll.cpp:180-320 | only an accept adds an entry: afterwards every handle was there before or is the accepted one |
| EventDispatch.DeliveredSentinels | poll.cpp:225-230 | the OnData calls the recv loop makes for received bytes add no teardown notification to whatever follows them |
| EventDispatch.ReadStepSentinels | poll.cpp:222-258 | the readable branch makes at most one teardown notification, for its own handle, after the entry is gone; when it erases the handle, it makes that notification |
| EventDispatch.DispatchStepSentinels | poll.cpp:180-320 | one snapshot entry makes at most one teardown notification, only for its own handle, and only once that handle has left the table; when it erases the handle, it makes that notification, unless the erasure is the zero-byte send |
| EventDispatch.DispatchAllSentinels | poll.cpp:180-320 | over a snapshot of distinct handles, each handle gets at most one teardown notification, and a handle outside the snapshot gets none |
| EventDispatch.RoundTearsDownAtMostOnce | poll.cpp:149-320 | in one iteration each handle gets at most one teardown notification, and only a handle that was in the table when the iteration began |
| EventDispatch.DispatchStepFrame | poll.cpp:180-320 | one snapshot entry neither adds, erases nor alters the entry of any handle other than its own and the accepted one |
| EventDispatch.DispatchAllFrame | poll.cpp:180-320 | a snapshot leaves every entry whose handle it does not hold, other than the accepted one, as it was |
| EventDispatch.DispatchAllNotifiesRemoved | poll.cpp:180-320 | over a snapshot, every handle whose entry is erased gets a teardown notification, unless the erasure is the zero-byte send or the accepted handle |
| EventDispatch.RoundNotifiesEveryRemoval | poll.cpp:231-314 | in one iteration, every handle erased from the table gets exactly one teardown notification, except one erased by the zero-byte send or equal to the handle in the iteration's accept outcome |
| EventDispatch.DispatchAllKeepsListener | poll.cpp:180-320 | no branch erases the listening socket's entry |
| EventDispatch.RunRoundsKeepsListener | poll.cpp:149-321 | the listening socket stays registered across any number of iterations |
| EventDispatch.StartRunKeepsTable | poll.cpp:134-149 | `start()` returns false, touching nothing, iff the listening handle is below 1. Otherwise the handle is registered and stays registered, and the entry invariant holds throughout |
| EventDispatch.QuietRounds | poll.cpp:151-176 | OnLoop below 1 ends the loop before any poll with nothing changed; a poll timeout or EINTR continues with the table unchanged |
| EventDispatch.DispatchAllFrom | poll.cpp:180-320 | dispatching a snapshot from position i is the step at i, followed, unless it threw, by dispatching from i + 1 |
| EventDispatch.DispatchLoopStep | poll.cpp:180-320 | one turn of the dispatch loop: the steps so far, this step and the rest make up the whole snapshot |
| EventDispatch.RunRoundsFrom | poll.cpp:149-321 | running from iteration i is iteration i followed, unless it ended the loop, by running from i + 1 |
| EventDispatch.RunLoopStep | poll.cpp:149-321 | one turn of the event loop: the iterations so far, this one and the rest make up the whole run |
| Reactor.PollServer.constructor | poll.cpp:106-111 | a new server has no connection and has made no hook call; it keeps the given `inPlace` choice (false is the code as written) |
| Reactor.PollServer.Write | poll.cpp:122-132 | the in-place `write` is `Enqueue`: the new table and the return value; it makes no hook call and keeps the entry invariant |
| Reactor.PollServer.WriteRaw | poll.cpp:115-118 | a negative length fails before the table is consulted, changing nothing; otherwise it is `Write` of the first `len` bytes |
| Reactor.PollServer.RebuildSnapshot | poll.cpp:157-162 | the loop over the map yields exactly the snapshot: one entry per handle, ascending |
| Reactor.PollServer.HandleAccept | poll.cpp:185-210 | the in-place accept branch has exactly the effect, hook calls and outcome of `AcceptStep` |
| Reactor.PollServer.HandleReadable | poll.cpp:222-258 | the recv loop through the 512-byte array has exactly the effect, hook calls and outcome of `ReadStep`, including the stop where the terminator would be written past the array |
| Reactor.PollServer.HandleWritable | poll.cpp:259-307 | the writable branch has exactly the effect and callback calls of `WriteStep`, with the send applied as the server's `inPlace` says |
| Reactor.PollServer.SendFrontRequest | poll.cpp:263-301 | one send of the front request matches `SendStep`: as written a partial send leaves the queue alone; corrected it updates the front request |
| Reactor.PollServer.HandleHangUp | poll.cpp:308-314 | erase, then OnData with -1, as `HangUpStep` |
| Reactor.PollServer.Dispatch | poll.cpp:180-320 | one snapshot entry, as `DispatchStep` with the server's `inPlace` |
| Reactor.PollServer.DispatchSnapshot | poll.cpp:180-320 | the loop over `pollfds` matches `DispatchAll` with the server's `inPlace`: entries in order, stopping at the first exception |
| Reactor.PollServer.Iterate | poll.cpp:149-320 | one iteration of `while (true)` matches `RoundStep` with the server's `inPlace` and keeps the entry invariant |
| Reactor.PollServer.RunLoop | poll.cpp:149-321 | the `while (true)` loop matches `RunRounds` with the server's `inPlace`: iterations in order until OnLoop stops it or an exception escapes, keeping the entry invariant |
| Reactor.PollServer.Start | poll.cpp:134-323 | `start()` matches `StartRun` with the server's `inPlace`: false for a handle below 1; otherwise the listener is registered and iterations run until OnLoop stops the loop or an exception escapes; the entry invariant holds throughout |

## Left out

- `startup()` and `set_nonblocking()`: only their outcome reaches the loop. They appear as the `StartupOutcome` of `Start` and the `nonBlockingOk` flag of an accept.
- The system calls `poll`, `accept`, `recv`, `send` and `close`, and poll's blocking for the timeout: their results are inputs. Closing handles is not modelled, so neither is the closing of the listening socket after the loop ends.
- `printf` and the `strerror` text carried by the exception: an escaping exception is a `FatalCause`.
- The constructor's `std::ref` of its by-value hook parameters, a lifetime defect with no observable bookkeeping. The hooks themselves appear only as trace events. Their return values are inputs: `OnLoop`'s is the `timeout` of a `Round`.
- Hooks calling `write` during the loop: the model records hook calls but does not run host code. The `depth` field records what a zero-length write would see at that moment.
- The buffer pointer passed to OnData for teardown calls (the stale `buf` for 0 and -2, `nullptr` for -1): the model records empty bytes. The contents the array keeps after an iteration are not part of any contract.
- main.cpp, the demonstration host, and the key-value protocol layer.
- Reactor.PollServer.WriteRaw: `std::string(data, len)` with a negative length is modelled as a length error. Reading past the caller's buffer is excluded by its precondition `len <= |data|`.
- WriteQueue.DrainConservesBytes: stated for the corrected, in-place send only, because as written bytes are repeated. WriteQueue.TwoRequestsAsWritten and the first row of "## Findings" state the code as written.
- WriteQueue.TwoRequestsScenario: the corrected send only; WriteQueue.TwoRequestsAsWritten is the same scenario as written.
- Reactor.PollServer.HandleReadable: the terminator write at index 512 is undefined behaviour in C++. The model stops there with `BufferOverrun`, before that chunk's OnData call, and does not model what the stray write would do.
- The requested recv length is not a parameter of the model. It appears only as a bound on the recv script (`Within`): 512 as written, 511 (`RecvCapacity`) corrected.
- The bytes handed to `send` are not recorded in the trace: the wire appears only in `Drain`, which `EventDispatch.WriteStepDrainsOnce` ties to the writable branch through the queue, the entry and the callback calls.
- Integer widths: handles, counts and byte counters are unbounded integers. The source's `int` cannot overflow on any modelled path except `out_bytes` beyond 2^31 bytes, which is not modelled.

## Findings

| source | as written | input that shows it | evidently intended | confidence | as-written member | corrected member |
|---|---|---|---|---|---|---|
| poll.cpp:265-293 | `auto r = q.front()` copies the request, so a partial send updates only the copy and the queued request keeps its full payload | queue `["OK"]`, send returns 1, then 2: the peer receives "O", "O", "K" | update the front request in place, so the next send continues with the unsent rest | not executed | WriteQueue.CopiedFrontResends | WriteQueue.InPlaceSendConservesBytes |
| poll.cpp:147-228 | `recv(item.fd, buf, sizeof(buf), 0)` may return 512, and `buf[ret] = '\0'` then writes one byte past `char buf[512]` | a peer sending 512 or more bytes at once | ask recv for at most `sizeof(buf) - 1` bytes | not executed | EventDispatch.AsWrittenRecvOverruns | EventDispatch.CorrectedRecvNeverOverruns |

A `PollServer` built with `inPlace == false` runs the code as written, and one
built with `inPlace == true` runs the corrected send. A recv script whose
chunks are all within `RecvCapacity` (511) bytes is the corrected recv, and
for it no handler stops at the overrun.
