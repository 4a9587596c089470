/**
  The connection table `std::map<int, connection>` of `poll_server`: the
  invariant every entry keeps, the public `write` primitive, and the poll
  snapshot rebuilt from the table in ascending handle order.
*/
module ConnectionTable {
  import opened PollTypes
  import opened WriteQueue

  type Table = map<int, Connection>

  /** What every entry of the table satisfies: it is keyed by its own handle
      (a valid one, at least 1), its stored ready mask is never set, it watches
      POLLIN and perhaps POLLOUT and nothing else, it watches POLLOUT whenever
      its queue is non-empty, and no queued payload is empty. */
  ghost predicate EntryOk(fd: int, c: Connection)
  {
    && fd >= 1
    && c.info.fd == fd
    && c.info.revents == 0
    && (c.info.events == POLLIN || c.info.events == POLLIN | POLLOUT)
    && (c.out != [] ==> c.info.events == POLLIN | POLLOUT)
    && forall i :: 0 <= i < |c.out| ==> c.out[i].data != [] && c.out[i].outBytes >= 0
  }

  ghost predicate TableInv(t: Table)
  {
    forall fd :: fd in t ==> EntryOk(fd, t[fd])
  }

  /** What `write(fd, "")` returns: the queue length, or None (it throws). */
  function DepthIn(t: Table, fd: int): Option<nat>
  {
    if fd in t then Some(|t[fd].out|) else None
  }

  /** The exceptions `write` lets escape: `connections.at` on a missing
      handle, and `std::string(data, len)` with a negative length. */
  datatype WriteError = OutOfRange | LengthError

  /** What `write` returns: the queue length after the call, or the exception. */
  datatype WriteResult = Queued(depth: nat) | WriteFailed(error: WriteError)

  datatype Enqueued = Enqueued(table: Table, result: WriteResult)

  /** `write(fd, data, cb)`. A handle with no entry fails and changes nothing.
      An empty payload changes nothing and reports the current depth; its
      callback is dropped. Otherwise `{data, cb, 0}` joins the back of that
      handle's queue only, POLLOUT is added to that handle's interest only,
      and the depth reported is the old one plus one. */
  function Enqueue(t: Table, fd: int, data: seq<Byte>, cb: Option<CallbackId>): (e: Enqueued)
    ensures e.result.WriteFailed? <==> fd !in t
    ensures e.result.WriteFailed? ==> e.result.error == OutOfRange
    ensures fd !in t || data == [] ==> e.table == t
    ensures e.table.Keys == t.Keys
    ensures forall other :: other in t && other != fd ==> e.table[other] == t[other]
    ensures fd in t && data == [] ==> e.result == Queued(|t[fd].out|)
    ensures fd in t && data != [] ==>
              && e.result == Queued(|t[fd].out| + 1)
              && e.table[fd].out == t[fd].out + [WriteRequest(data, cb, 0)]
              && e.table[fd].info == t[fd].info.(events := t[fd].info.events | POLLOUT)
  {
    if fd !in t then Enqueued(t, WriteFailed(OutOfRange))
    else
      var c := t[fd];
      if |data| <= 0 then Enqueued(t, Queued(|c.out|))
      else
        var c' := Connection(c.info.(events := c.info.events | POLLOUT), c.out + [WriteRequest(data, cb, 0)]);
        Enqueued(t[fd := c'], Queued(|c'.out|))
  }

  /** `write` keeps the table invariant. */
  lemma EnqueueKeepsTable(t: Table, fd: int, data: seq<Byte>, cb: Option<CallbackId>)
    requires TableInv(t)
    ensures TableInv(Enqueue(t, fd, data, cb).table)
  {
    var e := Enqueue(t, fd, data, cb);
    if fd in t && data != [] {
      var c := e.table[fd];
      assert c.info.events == POLLIN | POLLOUT by {
        assert t[fd].info.events == POLLIN || t[fd].info.events == POLLIN | POLLOUT;
      }
      forall i | 0 <= i < |c.out|
        ensures c.out[i].data != [] && c.out[i].outBytes >= 0
      {
        if i < |t[fd].out| {
          assert c.out[i] == t[fd].out[i];
        }
      }
      assert EntryOk(fd, c);
    }
  }

  /** What `write` adds to the bytes a connection still has to send: the
      payload, at the end. */
  lemma EnqueueAppendsPending(t: Table, fd: int, data: seq<Byte>, cb: Option<CallbackId>)
    requires fd in t
    ensures Pending(Enqueue(t, fd, data, cb).table[fd].out) == Pending(t[fd].out) + data
  {
    if data != [] {
      PendingAppend(t[fd].out, WriteRequest(data, cb, 0));
    } else {
      assert Pending(t[fd].out) + data == Pending(t[fd].out);
    }
  }

  /** What `write` adds to the completions a connection owes: a non-empty
      payload owes its callback its full length, after every request queued
      before it; an empty one owes nothing, its callback is dropped. With an
      empty queue owing nothing, this gives DrainIsFifo its ledger. */
  lemma EnqueueOwes(t: Table, fd: int, data: seq<Byte>, cb: Option<CallbackId>, ledger: seq<Completed>)
    requires fd in t && Accounts(t[fd].out, ledger)
    ensures Accounts(Enqueue(t, fd, data, cb).table[fd].out,
                     if data == [] then ledger else ledger + [Completed(cb, |data|)])
  {
    if data != [] {
      var q := Enqueue(t, fd, data, cb).table[fd].out;
      var owed := ledger + [Completed(cb, |data|)];
      assert q == t[fd].out + [WriteRequest(data, cb, 0)];
      forall i | 0 <= i < |q|
        ensures q[i].callback == owed[i].callback && q[i].outBytes + |q[i].data| == owed[i].result
        ensures q[i].outBytes >= 0
      {
        if i < |ledger| {
          assert q[i] == t[fd].out[i] && owed[i] == ledger[i];
        }
      }
    }
  }

  // Set facts that serve only SortedKeys: a non-empty set of handles has a
  // least element. They model nothing of the server itself.

  lemma NoMembersIsEmpty(s: set<int>)
    requires forall x :: x !in s
    ensures s == {}
  {
    assert forall x :: x in s <==> x in {};
  }

  lemma HasMember(s: set<int>)
    requires s != {}
    ensures exists x :: x in s
  {
    if forall x :: x !in s {
      NoMembersIsEmpty(s);
      assert false;
    }
  }

  /** A non-empty finite set of handles has a least element. */
  lemma MinExists(s: set<int>)
    requires s != {}
    ensures exists m :: m in s && forall k :: k in s ==> m <= k
  {
    HasMember(s);
    var x :| x in s;
    if s != {x} {
      assert s - {x} != {};
      MinExists(s - {x});
      var m :| m in s - {x} && forall k :: k in s - {x} ==> m <= k;
      var least := if x < m then x else m;
      forall k | k in s
        ensures least <= k
      {
        if k != x {
          assert k in s - {x};
        }
      }
      assert least in s;
    } else {
      assert forall k :: k in s ==> x <= k;
    }
  }

  ghost function MinOf(s: set<int>): (m: int)
    requires s != {}
    ensures m in s && forall k :: k in s ==> m <= k
  {
    MinExists(s);
    var m :| m in s && forall k :: k in s ==> m <= k;
    m
  }

  /** The handles of a set in the order `std::map` iterates them: ascending. */
  ghost function SortedKeys(s: set<int>): (ks: seq<int>)
    ensures |ks| == |s|
    ensures forall i, j :: 0 <= i < j < |ks| ==> ks[i] < ks[j]
    ensures forall k :: k in s <==> k in ks
    decreases |s|
  {
    if s == {} then []
    else
      var m := MinOf(s);
      var rest := SortedKeys(s - {m});
      assert forall k :: k in rest ==> m < k;
      [m] + rest
  }

  /** The poll snapshot of a table: one `pollfd` per entry, copied from the
      entry, in ascending handle order. */
  ghost function Snapshot(t: Table): seq<PollFd>
  {
    var ks := SortedKeys(t.Keys);
    seq(|ks|, i requires 0 <= i < |ks| => t[ks[i]].info)
  }

  /** The properties that make a sequence the snapshot of a table. */
  ghost predicate IsSnapshotOf(s: seq<PollFd>, t: Table)
  {
    && (forall i, j :: 0 <= i < j < |s| ==> s[i].fd < s[j].fd)
    && (forall i :: 0 <= i < |s| ==> s[i].fd in t && s[i] == t[s[i].fd].info)
    && (forall fd :: fd in t ==> exists i :: 0 <= i < |s| && s[i].fd == fd)
  }

  /** The snapshot has exactly one entry per table entry, in ascending
      handle order, each a copy of the entry's `pollfd`. */
  lemma SnapshotShape(t: Table)
    requires TableInv(t)
    ensures IsSnapshotOf(Snapshot(t), t)
    ensures |Snapshot(t)| == |t|
  {
    var ks := SortedKeys(t.Keys);
    var s := Snapshot(t);
    assert |t.Keys| == |t|;
    forall i | 0 <= i < |s|
      ensures s[i].fd == ks[i] && s[i].fd in t && s[i] == t[s[i].fd].info
    {
      assert ks[i] in t.Keys;
    }
    forall fd | fd in t
      ensures exists i :: 0 <= i < |s| && s[i].fd == fd
    {
      assert fd in ks;
      var i :| 0 <= i < |ks| && ks[i] == fd;
      assert s[i].fd == fd;
    }
  }

  /** Those properties determine the snapshot: any sequence that has them
      is the snapshot. */
  lemma SnapshotUnique(s1: seq<PollFd>, s2: seq<PollFd>, t: Table)
    requires IsSnapshotOf(s1, t) && IsSnapshotOf(s2, t)
    ensures s1 == s2
  {
    var n := if |s1| < |s2| then |s1| else |s2|;
    forall i | 0 <= i < n
      ensures s1[i].fd == s2[i].fd
    {
      FirstDifference(s1, s2, t, i);
    }
    if |s1| < |s2| {
      EntryBeyondIsEarlier(s1, s2, t);
      assert false;
    } else if |s2| < |s1| {
      EntryBeyondIsEarlier(s2, s1, t);
      assert false;
    }
    forall i | 0 <= i < |s1|
      ensures s1[i] == s2[i]
    {
    }
  }

  /** An entry of a longer snapshot past the end of a shorter one has its
      handle somewhere in the shorter one. */
  lemma EntryBeyondIsEarlier(s1: seq<PollFd>, s2: seq<PollFd>, t: Table)
    requires IsSnapshotOf(s1, t) && IsSnapshotOf(s2, t)
    requires |s1| < |s2|
    ensures exists j :: 0 <= j < |s1| && s1[j].fd == s2[|s1|].fd
  {
    assert s2[|s1|].fd in t;
  }

  /** Two snapshots of one table agree at every index both have. */
  lemma {:induction false} FirstDifference(s1: seq<PollFd>, s2: seq<PollFd>, t: Table, i: nat)
    requires IsSnapshotOf(s1, t) && IsSnapshotOf(s2, t)
    requires i < |s1| && i < |s2|
    ensures s1[i].fd == s2[i].fd
    decreases i
  {
    forall k | 0 <= k < i
      ensures s1[k].fd == s2[k].fd
    {
      FirstDifference(s1, s2, t, k);
    }
    NotBefore(s1, s2, t, i);
    NotBefore(s2, s1, t, i);
  }

  /** When two snapshots agree below index i, the handle at i of the first
      sits at index i or later in the second, so the second's handle at i is
      no larger. */
  lemma NotBefore(s1: seq<PollFd>, s2: seq<PollFd>, t: Table, i: nat)
    requires IsSnapshotOf(s1, t) && IsSnapshotOf(s2, t)
    requires i < |s1| && i < |s2|
    requires forall k :: 0 <= k < i ==> s1[k].fd == s2[k].fd
    ensures s2[i].fd <= s1[i].fd
  {
    assert s1[i].fd in t;
    var j :| 0 <= j < |s2| && s2[j].fd == s1[i].fd;
    if j < i {
      assert false;
    }
  }

  /** A snapshot under construction: the entries taken so far, in ascending
      order, each below every handle still to take, and every entry of the
      table either taken or still to take. */
  ghost predicate SnapshotSoFar(s: seq<PollFd>, remaining: set<int>, t: Table)
  {
    && remaining <= t.Keys
    && (forall i, j :: 0 <= i < j < |s| ==> s[i].fd < s[j].fd)
    && (forall i :: 0 <= i < |s| ==> s[i].fd in t && s[i] == t[s[i].fd].info)
    && (forall i, k :: 0 <= i < |s| && k in remaining ==> s[i].fd < k)
    && (forall fd :: fd in t ==> fd in remaining || exists i :: 0 <= i < |s| && s[i].fd == fd)
  }

  lemma SnapshotSoFarStart(t: Table)
    ensures SnapshotSoFar([], t.Keys, t)
  {
  }

  /** Taking the least handle still to take keeps the construction going. */
  lemma SnapshotSoFarStep(s: seq<PollFd>, remaining: set<int>, t: Table, m: int)
    requires TableInv(t) && SnapshotSoFar(s, remaining, t)
    requires m in remaining && forall k :: k in remaining ==> m <= k
    ensures SnapshotSoFar(s + [t[m].info], remaining - {m}, t)
  {
    assert EntryOk(m, t[m]);
    var s' := s + [t[m].info];
    var rest := remaining - {m};
    forall i, j | 0 <= i < j < |s'|
      ensures s'[i].fd < s'[j].fd
    {
      if j == |s| {
        assert s'[i] == s[i];
      } else {
        assert s'[i] == s[i] && s'[j] == s[j];
      }
    }
    forall i | 0 <= i < |s'|
      ensures s'[i].fd in t && s'[i] == t[s'[i].fd].info
    {
      if i < |s| {
        assert s'[i] == s[i];
      }
    }
    forall i, k | 0 <= i < |s'| && k in rest
      ensures s'[i].fd < k
    {
      if i < |s| {
        assert s'[i] == s[i];
      }
    }
    forall fd | fd in t && fd !in rest
      ensures exists j :: 0 <= j < |s'| && s'[j].fd == fd
    {
      if fd == m {
        assert s'[|s|].fd == m;
      } else {
        var j :| 0 <= j < |s| && s[j].fd == fd;
        assert s'[j] == s[j];
      }
    }
  }

  /** Once nothing is left to take, the construction is the snapshot. */
  lemma SnapshotSoFarDone(s: seq<PollFd>, t: Table)
    requires TableInv(t) && SnapshotSoFar(s, {}, t)
    ensures s == Snapshot(t)
  {
    assert IsSnapshotOf(s, t);
    SnapshotShape(t);
    SnapshotUnique(s, Snapshot(t), t);
  }
}
