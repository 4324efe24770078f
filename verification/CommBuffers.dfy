/** The message bookkeeping of one communicator as a value: send buffers, the two queues of
    destinations waiting to be flushed, the byte counters, and the sends MPI has not finished.
    `Comm` in module `CommObject` updates the same fields in place. */
module CommBuffers {

  /** A serialized message: its final destination (-1 in a broadcast) and its size, which is
      at least the two bytes of the lambda id. */
  datatype Packet = Packet(dest: int, bytes: nat)

  datatype Sent = Sent(to: nat, packets: seq<Packet>)

  /** Which ranks share the node, the capacities, and whether routing headers are packed. */
  datatype Network = Network(ranks: nat, isLocal: nat -> bool, localCapacity: nat, remoteCapacity: nat, routed: bool)

  const HEADER_BYTES: nat := 8

  function Size(c: Network, p: Packet): nat {
    (if c.routed then HEADER_BYTES else 0) + p.bytes
  }

  function Bytes(c: Network, b: seq<Packet>): nat {
    if b == [] then 0 else Bytes(c, b[..|b| - 1]) + Size(c, b[|b| - 1])
  }

  datatype Books = Books(
    buffers: seq<seq<Packet>>,    // m_vec_send_buffers
    localQueue: seq<nat>,         // m_send_local_dest_queue
    remoteQueue: seq<nat>,        // m_send_remote_dest_queue
    localBytes: nat,              // m_send_local_buffer_bytes
    remoteBytes: nat,             // m_send_remote_buffer_bytes
    sendQueue: seq<Sent>,         // m_send_queue
    pendingBytes: nat,            // m_pending_isend_bytes
    wire: seq<Sent>,              // everything ever handed to MPI, in order
    queued: seq<seq<Packet>>)     // everything ever put into each buffer, in order

  // ----- what the books promise -----

  /** The bytes buffered for the ranks below `n` on one side of the node boundary. */
  function SideBytes(c: Network, buffers: seq<seq<Packet>>, local: bool, n: nat): nat
    requires n <= |buffers|
  {
    if n == 0 then 0
    else SideBytes(c, buffers, local, n - 1) + if c.isLocal(n - 1) == local then Bytes(c, buffers[n - 1]) else 0
  }

  function PendingBytes(c: Network, q: seq<Sent>): nat {
    if q == [] then 0 else Bytes(c, q[0].packets) + PendingBytes(c, q[1..])
  }

  /** The packets handed to MPI for one rank, in order. */
  function Shipped(wire: seq<Sent>, d: nat): seq<Packet> {
    if wire == [] then []
    else Shipped(wire[..|wire| - 1], d) + if wire[|wire| - 1].to == d then wire[|wire| - 1].packets else []
  }

  ghost predicate Distinct(q: seq<nat>) {
    forall i, j :: 0 <= i < j < |q| ==> q[i] != q[j]
  }

  ghost predicate PacketsOk(b: seq<Packet>) {
    forall p :: p in b ==> p.bytes >= 2
  }

  /** Rank `d` is queued on its side exactly while its buffer is not empty, and nothing put
      into its buffer was lost, repeated or reordered on the way to MPI. */
  ghost predicate RankKept(c: Network, s: Books, d: nat)
    requires d < |s.buffers| == |s.queued|
  {
    && PacketsOk(s.buffers[d])
    && (d in s.localQueue <==> c.isLocal(d) && s.buffers[d] != [])
    && (d in s.remoteQueue <==> !c.isLocal(d) && s.buffers[d] != [])
    && s.queued[d] == Shipped(s.wire, d) + s.buffers[d]
  }

  ghost predicate Kept(c: Network, s: Books) {
    && |s.buffers| == |s.queued| == c.ranks
    && (forall d :: 0 <= d < c.ranks ==> RankKept(c, s, d))
    && (forall d :: d in s.localQueue || d in s.remoteQueue ==> d < c.ranks)
    && Distinct(s.localQueue) && Distinct(s.remoteQueue)
    && s.localBytes == SideBytes(c, s.buffers, true, c.ranks)
    && s.remoteBytes == SideBytes(c, s.buffers, false, c.ranks)
    && s.pendingBytes == PendingBytes(c, s.sendQueue)
  }

  // ----- sums -----

  lemma {:induction false} SideBytesUpdate(c: Network, buffers: seq<seq<Packet>>, local: bool, n: nat, d: nat,
                                           b: seq<Packet>)
    requires n <= |buffers| && d < |buffers|
    ensures SideBytes(c, buffers[d := b], local, n) ==
      SideBytes(c, buffers, local, n) + if d < n && c.isLocal(d) == local then Bytes(c, b) - Bytes(c, buffers[d]) else 0
  {
    if n > 0 {
      SideBytesUpdate(c, buffers, local, n - 1, d, b);
    }
  }

  lemma {:induction false} SideBytesCover(c: Network, buffers: seq<seq<Packet>>, local: bool, n: nat, d: nat)
    requires d < n <= |buffers| && c.isLocal(d) == local
    ensures Bytes(c, buffers[d]) <= SideBytes(c, buffers, local, n)
  {
    if d < n - 1 {
      SideBytesCover(c, buffers, local, n - 1, d);
    }
  }

  lemma {:induction false} SideBytesZero(c: Network, buffers: seq<seq<Packet>>, local: bool, n: nat)
    requires n <= |buffers|
    requires forall d :: 0 <= d < n && c.isLocal(d) == local ==> buffers[d] == []
    ensures SideBytes(c, buffers, local, n) == 0
  {
    if n > 0 {
      SideBytesZero(c, buffers, local, n - 1);
    }
  }

  lemma {:induction false} PendingAppend(c: Network, q: seq<Sent>, x: Sent)
    ensures PendingBytes(c, q + [x]) == PendingBytes(c, q) + Bytes(c, x.packets)
  {
    if q == [] {
      assert [x][1..] == [];
    } else {
      PendingAppend(c, q[1..], x);
      assert (q + [x])[1..] == q[1..] + [x];
    }
  }

  // ----- the elementary updates -----

  /** Put a packet into the buffer of the next hop `d` and note its bytes; an empty buffer is
      queued for flushing first. */
  function Append(c: Network, s: Books, d: nat, p: Packet): Books
    requires d < |s.buffers| == |s.queued|
  {
    var local := c.isLocal(d);
    var first := s.buffers[d] == [];
    s.(buffers := s.buffers[d := s.buffers[d] + [p]],
       localQueue := if local && first then s.localQueue + [d] else s.localQueue,
       remoteQueue := if !local && first then s.remoteQueue + [d] else s.remoteQueue,
       localBytes := if local then s.localBytes + Size(c, p) else s.localBytes,
       remoteBytes := if local then s.remoteBytes else s.remoteBytes + Size(c, p),
       queued := s.queued[d := s.queued[d] + [p]])
  }

  predicate CanShip(c: Network, s: Books, local: bool) {
    && c.ranks == |s.buffers|
    && (var q := if local then s.localQueue else s.remoteQueue;
        q != [] && q[0] < c.ranks &&
        Bytes(c, s.buffers[q[0]]) <= if local then s.localBytes else s.remoteBytes)
  }

  /** Pop the first destination of one queue and hand its whole buffer to MPI. */
  function Ship(c: Network, s: Books, local: bool): Books
    requires CanShip(c, s, local)
  {
    var d := if local then s.localQueue[0] else s.remoteQueue[0];
    var b := s.buffers[d];
    s.(buffers := s.buffers[d := []],
       localQueue := if local then s.localQueue[1..] else s.localQueue,
       remoteQueue := if local then s.remoteQueue else s.remoteQueue[1..],
       localBytes := if local then s.localBytes - Bytes(c, b) else s.localBytes,
       remoteBytes := if local then s.remoteBytes else s.remoteBytes - Bytes(c, b),
       sendQueue := s.sendQueue + [Sent(d, b)],
       pendingBytes := s.pendingBytes + Bytes(c, b),
       wire := s.wire + [Sent(d, b)])
  }

  predicate CanComplete(c: Network, s: Books) {
    s.sendQueue != [] && Bytes(c, s.sendQueue[0].packets) <= s.pendingBytes
  }

  /** The oldest unfinished send has completed. */
  function Complete(c: Network, s: Books): Books
    requires CanComplete(c, s)
  {
    s.(sendQueue := s.sendQueue[1..], pendingBytes := s.pendingBytes - Bytes(c, s.sendQueue[0].packets))
  }

  lemma {:induction false} AppendQueue(q: seq<nat>, d: nat)
    requires Distinct(q) && d !in q
    ensures Distinct(q + [d])
    ensures forall e :: e in q + [d] <==> e in q || e == d
  {
  }

  lemma {:induction false} AppendRank(c: Network, s: Books, d: nat, p: Packet, e: nat)
    requires Kept(c, s) && d < c.ranks && p.bytes >= 2 && e < c.ranks
    ensures RankKept(c, Append(c, s, d, p), e)
  {
    assert RankKept(c, s, e) && RankKept(c, s, d);
    if s.buffers[d] == [] {
      AppendQueue(if c.isLocal(d) then s.localQueue else s.remoteQueue, d);
    }
  }

  lemma {:induction false} AppendKeeps(c: Network, s: Books, d: nat, p: Packet)
    requires Kept(c, s) && d < c.ranks && p.bytes >= 2
    ensures Kept(c, Append(c, s, d, p))
  {
    var s' := Append(c, s, d, p);
    var b := s.buffers[d] + [p];
    assert b[..|b| - 1] == s.buffers[d];
    SideBytesUpdate(c, s.buffers, true, c.ranks, d, b);
    SideBytesUpdate(c, s.buffers, false, c.ranks, d, b);
    assert RankKept(c, s, d);
    if s.buffers[d] == [] {
      AppendQueue(if c.isLocal(d) then s.localQueue else s.remoteQueue, d);
    }
    forall e | 0 <= e < c.ranks ensures RankKept(c, s', e) {
      AppendRank(c, s, d, p, e);
    }
  }

  /** The first destination of a queue has something to send, and its bytes are counted. */
  lemma {:induction false} FirstInQueue(c: Network, s: Books, local: bool)
    requires Kept(c, s) && (if local then s.localQueue else s.remoteQueue) != []
    ensures CanShip(c, s, local)
    ensures var d := if local then s.localQueue[0] else s.remoteQueue[0];
      d < c.ranks && c.isLocal(d) == local && s.buffers[d] != [] && Bytes(c, s.buffers[d]) > 0
  {
    var q := if local then s.localQueue else s.remoteQueue;
    assert q[0] in q;
    assert RankKept(c, s, q[0]);
    SideBytesCover(c, s.buffers, local, c.ranks, q[0]);
    assert s.buffers[q[0]][|s.buffers[q[0]]| - 1] in s.buffers[q[0]];
  }

  lemma {:induction false} ShipRank(c: Network, s: Books, local: bool, e: nat)
    requires Kept(c, s) && CanShip(c, s, local) && e < c.ranks
    requires c.isLocal(if local then s.localQueue[0] else s.remoteQueue[0]) == local
    ensures RankKept(c, Ship(c, s, local), e)
  {
    var q := if local then s.localQueue else s.remoteQueue;
    var s' := Ship(c, s, local);
    ShipQueues(q);
    assert RankKept(c, s, e);
    assert s'.wire[..|s'.wire| - 1] == s.wire;
    assert s'.wire[|s'.wire| - 1] == Sent(q[0], s.buffers[q[0]]);
  }

  lemma {:induction false} ShipSums(c: Network, s: Books, local: bool)
    requires Kept(c, s) && CanShip(c, s, local)
    requires c.isLocal(if local then s.localQueue[0] else s.remoteQueue[0]) == local
    ensures var s' := Ship(c, s, local);
      && s'.localBytes == SideBytes(c, s'.buffers, true, c.ranks)
      && s'.remoteBytes == SideBytes(c, s'.buffers, false, c.ranks)
      && s'.pendingBytes == PendingBytes(c, s'.sendQueue)
  {
    var d := if local then s.localQueue[0] else s.remoteQueue[0];
    SideBytesUpdate(c, s.buffers, true, c.ranks, d, []);
    SideBytesUpdate(c, s.buffers, false, c.ranks, d, []);
    PendingAppend(c, s.sendQueue, Sent(d, s.buffers[d]));
  }

  lemma {:induction false} ShipKeeps(c: Network, s: Books, local: bool)
    requires Kept(c, s) && (if local then s.localQueue else s.remoteQueue) != []
    ensures CanShip(c, s, local) && Kept(c, Ship(c, s, local))
    ensures var s' := Ship(c, s, local);
      if local then s'.localBytes < s.localBytes && s'.remoteBytes == s.remoteBytes
      else s'.remoteBytes < s.remoteBytes && s'.localBytes == s.localBytes
  {
    FirstInQueue(c, s, local);
    ShipSums(c, s, local);
    ShipQueues(if local then s.localQueue else s.remoteQueue);
    forall e | 0 <= e < c.ranks ensures RankKept(c, Ship(c, s, local), e) {
      ShipRank(c, s, local, e);
    }
  }

  lemma {:induction false} ShipQueues(q: seq<nat>)
    requires q != [] && Distinct(q)
    ensures Distinct(q[1..])
    ensures forall e :: e in q[1..] <==> e in q && e != q[0]
  {
    assert q == [q[0]] + q[1..];
  }

  lemma {:induction false} CompleteKeeps(c: Network, s: Books)
    requires Kept(c, s) && s.sendQueue != []
    ensures CanComplete(c, s) && Kept(c, Complete(c, s))
  {
    forall e | 0 <= e < c.ranks ensures RankKept(c, Complete(c, s), e) {
      assert RankKept(c, s, e);
    }
  }

  /** While a byte counter is positive its queue is not empty: `flush_to_capacity` never
      finds a counter above capacity with nothing to flush. */
  lemma {:induction false} BytesAreQueued(c: Network, s: Books)
    requires Kept(c, s)
    ensures s.localBytes > 0 <==> s.localQueue != []
    ensures s.remoteBytes > 0 <==> s.remoteQueue != []
  {
    forall local: bool
      ensures SideBytes(c, s.buffers, local, c.ranks) > 0 <==> (if local then s.localQueue else s.remoteQueue) != []
    {
      var q := if local then s.localQueue else s.remoteQueue;
      if q != [] {
        assert q[0] in q;
        assert RankKept(c, s, q[0]);
        SideBytesCover(c, s.buffers, local, c.ranks, q[0]);
      } else {
        forall d | 0 <= d < c.ranks && c.isLocal(d) == local ensures s.buffers[d] == [] {
          assert RankKept(c, s, d);
        }
        SideBytesZero(c, s.buffers, local, c.ranks);
      }
    }
  }

  /** Empty queues mean that every packet ever queued has been handed to MPI, in order. */
  lemma {:induction false} EmptyQueuesShippedAll(c: Network, s: Books, d: nat)
    requires Kept(c, s) && s.localQueue == [] && s.remoteQueue == [] && d < c.ranks
    ensures s.buffers[d] == [] && s.queued[d] == Shipped(s.wire, d)
  {
    assert RankKept(c, s, d);
  }
}
