/**
  The per-connection write queue: what one send on a POLLOUT notification
  does to the front request, and what a run of such notifications puts on
  the wire and reports to the completion callbacks.
*/
module WriteQueue {
  import opened PollTypes

  /** The bytes the queue still has to put on the wire, front request first. */
  function Pending(q: seq<WriteRequest>): seq<Byte>
  {
    if q == [] then [] else q[0].data + Pending(q[1..])
  }

  /** Enqueueing at the back adds the payload at the end of what is pending. */
  lemma {:induction false} PendingAppend(q: seq<WriteRequest>, r: WriteRequest)
    ensures Pending(q + [r]) == Pending(q) + r.data
  {
    if q == [] {
      assert q + [r] == [r];
      assert [r][1..] == [];
    } else {
      assert (q + [r])[0] == q[0];
      assert (q + [r])[1..] == q[1..] + [r];
      PendingAppend(q[1..], r);
    }
  }

  /** The return value of `send` on a non-blocking socket asked to send
      `size` bytes: -1 on error, otherwise as many bytes as there is room for. */
  function SendReturn(s: SendOutcome, size: nat): (n: int)
    ensures n < 0 <==> s.SendError?
    ensures s.SendError? ==> n == -1
    ensures s.SendRoom? ==> 0 <= n <= size && n <= s.room && (n == size || n == s.room)
  {
    match s
    case SendError => -1
    case SendRoom(room) => if room < size then room else size
  }

  /** What one send does to a non-empty queue: it failed (the callback gets
      the negative value), it progressed (the new queue, and the byte count
      reported to the callback when the front request completed), or it
      returned 0 on a non-empty payload (the peer closed). */
  datatype FrontStep =
    | SendFailed(ret: int)
    | Progressed(queue: seq<WriteRequest>, completed: Option<int>)
    | PeerClosed

  /** One send of the front request's payload that returned `ret`. With
      `inPlace` the front request is updated through a reference: its cursor
      advances and its payload loses the bytes sent. Without it the update is
      made to a copy (`auto r = q.front()`) and a partial send leaves the queue
      as it was. Only a send covering the whole payload pops the request, and
      the completion reports the bytes sent so far plus this send. */
  function SendFront(q: seq<WriteRequest>, ret: int, inPlace: bool): (step: FrontStep)
    requires q != [] && ret <= |q[0].data|
    ensures step.SendFailed? <==> ret < 0
    ensures step.SendFailed? ==> step.ret == ret
    ensures step.PeerClosed? <==> ret == 0 && q[0].data != []
    ensures step.Progressed? ==> (step.completed.Some? <==> ret == |q[0].data|)
    ensures step.Progressed? && step.completed.Some? ==>
              step.queue == q[1..] && step.completed.value == q[0].outBytes + |q[0].data|
    ensures step.Progressed? && step.completed.None? ==>
              |step.queue| == |q| && step.queue[1..] == q[1..]
  {
    var r := q[0];
    if ret < 0 then SendFailed(ret)
    else if ret > 0 || ret == |r.data| then
      var sent := r.(outBytes := r.outBytes + ret, data := r.data[ret..]);
      if sent.data == [] then Progressed(q[1..], Some(sent.outBytes))
      else if inPlace then Progressed([sent] + q[1..], None)
      else Progressed(q, None)
    else PeerClosed
  }

  /** The bytes one send that returned `ret` puts on the wire. */
  function Wire(q: seq<WriteRequest>, ret: int): (w: seq<Byte>)
    requires q != [] && ret <= |q[0].data|
    ensures |w| == if ret > 0 then ret else 0
  {
    if ret > 0 then q[0].data[..ret] else []
  }

  /** As written (by copy): a partial send leaves the whole payload queued,
      so the next POLLOUT sends its first bytes again and the peer receives
      more bytes than were ever enqueued. */
  lemma CopiedFrontResends(q: seq<WriteRequest>, ret: int)
    requires q != [] && 0 < ret < |q[0].data|
    ensures SendFront(q, ret, false) == Progressed(q, None)
    ensures |Wire(q, ret)| + |Pending(SendFront(q, ret, false).queue)| > |Pending(q)|
  {
  }

  /** The duplication on a two-byte payload "OK" that goes out in two sends. */
  lemma CopiedFrontExample()
    ensures var q := [WriteRequest([79, 75], None, 0)];
            && SendFront(q, 1, false) == Progressed(q, None)
            && SendFront(q, 2, false) == Progressed([], Some(2))
            && Wire(q, 1) + Wire(q, 2) == [79, 79, 75]
            && Pending(q) == [79, 75]
  {
    var q := [WriteRequest([79, 75], None, 0)];
    assert q[0].data[..1] == [79];
    assert q[1..] == [];
  }

  /** Corrected (in place): whatever one send does, the bytes it puts on the
      wire followed by what is still pending are exactly what was pending. */
  lemma InPlaceSendConservesBytes(q: seq<WriteRequest>, ret: int)
    requires q != [] && ret <= |q[0].data|
    requires SendFront(q, ret, true).Progressed?
    ensures Pending(q) == Wire(q, ret) + Pending(SendFront(q, ret, true).queue)
  {
    var r := q[0];
    var step := SendFront(q, ret, true);
    var rest := Pending(q[1..]);
    assert Pending(q) == r.data + rest;
    if step.completed.Some? {
      assert r.data[..ret] == r.data;
      assert step.queue == q[1..];
    } else {
      var front := step.queue[0];
      assert front.data == r.data[ret..];
      assert step.queue[1..] == q[1..];
      assert Pending(step.queue) == r.data[ret..] + rest;
      assert Wire(q, ret) == r.data[..ret];
      calc {
        Pending(q);
        r.data + rest;
        { assert r.data == r.data[..ret] + r.data[ret..]; }
        (r.data[..ret] + r.data[ret..]) + rest;
        r.data[..ret] + (r.data[ret..] + rest);
      }
    }
  }

  /** One completion a callback is owed: the callback and the byte count. */
  datatype Completed = Completed(callback: Option<CallbackId>, result: int)

  /** The completions the queue owes, request by request: the callback, and
      the full payload length (bytes already sent plus bytes still queued).
      Bytes already sent are never negative: `write` starts them at 0 and
      only a positive send adds to them. */
  ghost predicate Accounts(q: seq<WriteRequest>, ledger: seq<Completed>)
  {
    && |q| == |ledger|
    && forall i :: 0 <= i < |q| ==>
         && q[i].callback == ledger[i].callback && q[i].outBytes + |q[i].data| == ledger[i].result
         && q[i].outBytes >= 0
  }

  /** The outcome of serving successive POLLOUT notifications of one queue:
      what is left, what went on the wire, the callback calls in the order
      they were made (a failed send's negative value or a completion's byte
      count), and whether a zero-byte send ended the connection. */
  datatype Drained = Drained(queue: seq<WriteRequest>, wire: seq<Byte>, done: seq<Completed>, closed: bool)

  /** Serves one send per notification, by copy or in place (see
      SendFront), until the queue is empty, the sends run out or the peer
      closes. A failed send calls the front request's callback with its
      negative value and is retried at the next notification. */
  function Drain(q: seq<WriteRequest>, sends: seq<SendOutcome>, inPlace: bool): (d: Drained)
    decreases |sends|
  {
    if sends == [] || q == [] then Drained(q, [], [], false)
    else
      var ret := SendReturn(sends[0], |q[0].data|);
      match SendFront(q, ret, inPlace)
      case SendFailed(n) =>
        var d := Drain(q, sends[1..], inPlace);
        Drained(d.queue, d.wire, [Completed(q[0].callback, n)] + d.done, d.closed)
      case PeerClosed => Drained(q, [], [], true)
      case Progressed(rest, completed) =>
        var d := Drain(rest, sends[1..], inPlace);
        var fired := if completed.Some? then [Completed(q[0].callback, completed.value)] else [];
        Drained(d.queue, Wire(q, ret) + d.wire, fired + d.done, d.closed)
  }

  /** One send, by copy or in place, keeps the accounts: a completion pays
      the front entry of the ledger, and what is left owes the rest of it. */
  lemma SendKeepsAccounts(q: seq<WriteRequest>, ledger: seq<Completed>, ret: int, inPlace: bool)
    requires q != [] && ret <= |q[0].data|
    requires Accounts(q, ledger)
    requires SendFront(q, ret, inPlace).Progressed?
    ensures var step := SendFront(q, ret, inPlace);
            if step.completed.Some? then
              && ledger[0] == Completed(q[0].callback, step.completed.value)
              && Accounts(step.queue, ledger[1..])
            else Accounts(step.queue, ledger)
  {
    var step := SendFront(q, ret, inPlace);
    var rest := step.queue;
    if step.completed.Some? {
      assert rest == q[1..];
      var tail := ledger[1..];
      forall i | 0 <= i < |rest|
        ensures rest[i].callback == tail[i].callback && rest[i].outBytes + |rest[i].data| == tail[i].result
        ensures rest[i].outBytes >= 0
      {
        assert rest[i] == q[i + 1];
      }
    } else {
      forall i | 0 <= i < |rest|
        ensures rest[i].callback == ledger[i].callback && rest[i].outBytes + |rest[i].data| == ledger[i].result
        ensures rest[i].outBytes >= 0
      {
        if i > 0 {
          assert rest[i] == rest[1..][i - 1] == q[1..][i - 1] == q[i];
        }
      }
    }
  }

  /** Paying the front entry, then the first k of the rest, pays the first
      k + 1 entries. Sequence algebra only, to keep the solver's work small;
      models nothing. */
  lemma LedgerAfterFront(ledger: seq<Completed>, k: nat)
    requires 0 < |ledger| && k < |ledger|
    ensures [ledger[0]] + ledger[1..][..k] == ledger[..k + 1]
    ensures ledger[1..][k..] == ledger[k + 1..]
  {
  }

  /** The callback calls a queue owing `ledger` may make, call by call: a
      failed send calls the front request's callback with -1 and leaves the
      ledger as it is; a completion pays the front entry and moves on to the
      next request. */
  ghost predicate Served(done: seq<Completed>, ledger: seq<Completed>)
    decreases |done|
  {
    done == [] ||
    (|ledger| > 0 &&
     if done[0].result < 0 then done[0] == Completed(ledger[0].callback, -1) && Served(done[1..], ledger)
     else done[0] == ledger[0] && Served(done[1..], ledger[1..]))
  }

  /** The completions among the callback calls: those with a byte count. */
  function Successes(done: seq<Completed>): seq<Completed>
  {
    if done == [] then []
    else (if done[0].result >= 0 then [done[0]] else []) + Successes(done[1..])
  }

  lemma SuccessesCons(x: Completed, done: seq<Completed>)
    ensures Successes([x] + done) == (if x.result >= 0 then [x] else []) + Successes(done)
  {
    assert ([x] + done)[1..] == done;
  }

  /** What DrainIsFifo states of the calls `done` made and the queue `left`. */
  ghost predicate FifoServed(done: seq<Completed>, left: seq<WriteRequest>, ledger: seq<Completed>)
  {
    var k := |Successes(done)|;
    && Served(done, ledger)
    && k <= |ledger|
    && Successes(done) == ledger[..k]
    && Accounts(left, ledger[k..])
  }

  /** A failure reported to the front request keeps the ledger. */
  lemma FifoAfterFailure(ledger: seq<Completed>, done: seq<Completed>, left: seq<WriteRequest>)
    requires |ledger| > 0 && FifoServed(done, left, ledger)
    ensures FifoServed([Completed(ledger[0].callback, -1)] + done, left, ledger)
  {
    var x := Completed(ledger[0].callback, -1);
    assert ([x] + done)[1..] == done;
    SuccessesCons(x, done);
  }

  /** A completion of the front request pays the first ledger entry. */
  lemma FifoAfterCompletion(ledger: seq<Completed>, done: seq<Completed>, left: seq<WriteRequest>)
    requires |ledger| > 0 && ledger[0].result >= 0 && FifoServed(done, left, ledger[1..])
    ensures FifoServed([ledger[0]] + done, left, ledger)
  {
    assert ([ledger[0]] + done)[1..] == done;
    SuccessesCons(ledger[0], done);
    LedgerAfterFront(ledger, |Successes(done)|);
  }

  /** FIFO completion, by copy or in place: every callback call is either a
      failure reported to the request then at the front or that request's
      completion, the completions fire in enqueue order, each reporting its
      request's full length, and what is left still owes the rest. */
  lemma {:induction false} DrainIsFifo(q: seq<WriteRequest>, ledger: seq<Completed>, sends: seq<SendOutcome>, inPlace: bool)
    requires Accounts(q, ledger)
    ensures var d := Drain(q, sends, inPlace);
            var k := |Successes(d.done)|;
            && Served(d.done, ledger)
            && k <= |ledger|
            && Successes(d.done) == ledger[..k]
            && Accounts(d.queue, ledger[k..])
    decreases |sends|
  {
    var d := Drain(q, sends, inPlace);
    if sends == [] || q == [] {
      assert ledger[..0] == [] && ledger[0..] == ledger;
    } else {
      var ret := SendReturn(sends[0], |q[0].data|);
      var step := SendFront(q, ret, inPlace);
      if step.SendFailed? {
        DrainIsFifo(q, ledger, sends[1..], inPlace);
        var rest := Drain(q, sends[1..], inPlace);
        assert d == Drained(rest.queue, rest.wire, [Completed(ledger[0].callback, -1)] + rest.done, rest.closed);
        FifoAfterFailure(ledger, rest.done, rest.queue);
      } else if step.PeerClosed? {
        assert ledger[..0] == [] && ledger[0..] == ledger;
      } else {
        SendKeepsAccounts(q, ledger, ret, inPlace);
        var rest := Drain(step.queue, sends[1..], inPlace);
        if step.completed.Some? {
          DrainIsFifo(step.queue, ledger[1..], sends[1..], inPlace);
          assert d.queue == rest.queue && d.done == [ledger[0]] + rest.done;
          FifoAfterCompletion(ledger, rest.done, rest.queue);
        } else {
          DrainIsFifo(step.queue, ledger, sends[1..], inPlace);
          assert d.queue == rest.queue && d.done == rest.done;
        }
      }
    }
  }

  /** One notification served on a non-empty queue, case by case. */
  lemma DrainSingle(q: seq<WriteRequest>, s: SendOutcome, inPlace: bool)
    requires q != []
    ensures var ret := SendReturn(s, |q[0].data|);
            var step := SendFront(q, ret, inPlace);
            var d := Drain(q, [s], inPlace);
            && (step.SendFailed? ==> d == Drained(q, [], [Completed(q[0].callback, step.ret)], false))
            && (step.PeerClosed? ==> d == Drained(q, [], [], true))
            && (step.Progressed? ==>
                  d == Drained(step.queue, Wire(q, ret),
                               if step.completed.Some? then [Completed(q[0].callback, step.completed.value)] else [],
                               false))
  {
    assert [s][1..] == [];
    var ret := SendReturn(s, |q[0].data|);
    if SendFront(q, ret, inPlace).Progressed? {
      assert Wire(q, ret) + [] == Wire(q, ret);
    }
  }

  /** Serving the first notification, then the rest from the queue it left,
      is serving them all: the notifications a connection gets one at a time
      compose to one Drain. */
  lemma DrainOneThenRest(q: seq<WriteRequest>, sends: seq<SendOutcome>, inPlace: bool)
    requires sends != []
    ensures var first := Drain(q, sends[..1], inPlace);
            var rest := Drain(first.queue, sends[1..], inPlace);
            Drain(q, sends, inPlace) ==
              if first.closed then first
              else Drained(rest.queue, first.wire + rest.wire, first.done + rest.done, rest.closed)
  {
    assert sends[..1] == [sends[0]];
    if q != [] {
      DrainSingle(q, sends[0], inPlace);
    }
  }

  /** Corrected (in place): the wire carries exactly the enqueued bytes in
      order, with nothing lost and nothing repeated: what went out followed
      by what is left is what was pending. */
  lemma {:induction false} DrainConservesBytes(q: seq<WriteRequest>, sends: seq<SendOutcome>)
    ensures var d := Drain(q, sends, true);
            Pending(q) == d.wire + Pending(d.queue)
    decreases |sends|
  {
    if sends != [] && q != [] {
      var ret := SendReturn(sends[0], |q[0].data|);
      var step := SendFront(q, ret, true);
      if step.SendFailed? {
        DrainConservesBytes(q, sends[1..]);
      } else if step.Progressed? {
        InPlaceSendConservesBytes(q, ret);
        DrainConservesBytes(step.queue, sends[1..]);
        var rest := Drain(step.queue, sends[1..], true);
        var d := Drain(q, sends, true);
        assert d.wire == Wire(q, ret) + rest.wire && d.queue == rest.queue;
        calc {
          Pending(q);
          Wire(q, ret) + Pending(step.queue);
          Wire(q, ret) + (rest.wire + Pending(rest.queue));
          (Wire(q, ret) + rest.wire) + Pending(rest.queue);
        }
      }
    }
  }

  /** The two-request scenario: "OK\r\n" then "DONE\r\n" queued before any
      POLLOUT, and the socket has room for 2, then 5, then 6 bytes. Corrected
      (in place), both arrive once and in order, and each callback reports its
      request's full length. */
  lemma TwoRequestsScenario()
    ensures var ok := [79, 75, 13, 10];
            var done := [68, 79, 78, 69, 13, 10];
            var q := [WriteRequest(ok, Some(1), 0), WriteRequest(done, Some(2), 0)];
            var d := Drain(q, [SendRoom(2), SendRoom(5), SendRoom(6)], true);
            && d.wire == ok + done
            && d.done == [Completed(Some(1), 4), Completed(Some(2), 6)]
            && d.queue == []
  {
    var ok: seq<Byte> := [79, 75, 13, 10];
    var done: seq<Byte> := [68, 79, 78, 69, 13, 10];
    var q := [WriteRequest(ok, Some(1), 0), WriteRequest(done, Some(2), 0)];
    var ledger := [Completed(Some(1), 4), Completed(Some(2), 6)];
    assert Accounts(q, ledger);
    DrainIsFifo(q, ledger, [SendRoom(2), SendRoom(5), SendRoom(6)], true);
    DrainConservesBytes(q, [SendRoom(2), SendRoom(5), SendRoom(6)]);
    var d := Drain(q, [SendRoom(2), SendRoom(5), SendRoom(6)], true);
    assert Pending(q) == ok + done by {
      assert q[1..][1..] == [];
    }
    assert d.queue == [] by {
      // All ten bytes are on the wire, so nothing is pending.
      var s1 := SendFront(q, 2, true);
      assert s1 == Progressed([WriteRequest(ok[2..], Some(1), 2)] + q[1..], None);
    }
  }

  /** The same scenario as written (by copy): the first two bytes go out
      twice, "OK" + "OK\r\n" + "DONE\r\n", while the callbacks still report
      4 and 6. */
  lemma TwoRequestsAsWritten()
    ensures var ok := [79, 75, 13, 10];
            var done := [68, 79, 78, 69, 13, 10];
            var q := [WriteRequest(ok, Some(1), 0), WriteRequest(done, Some(2), 0)];
            var d := Drain(q, [SendRoom(2), SendRoom(5), SendRoom(6)], false);
            && d.wire == ok[..2] + ok + done
            && d.done == [Completed(Some(1), 4), Completed(Some(2), 6)]
            && d.queue == []
  {
    var ok: seq<Byte> := [79, 75, 13, 10];
    var done: seq<Byte> := [68, 79, 78, 69, 13, 10];
    var q := [WriteRequest(ok, Some(1), 0), WriteRequest(done, Some(2), 0)];
    assert SendFront(q, 2, false) == Progressed(q, None);
    assert SendFront(q, 4, false) == Progressed(q[1..], Some(4));
    assert q[1..][1..] == [];
    assert SendFront(q[1..], 6, false) == Progressed([], Some(6));
  }
}
