/** The communicator object of one rank: `async`, forwarding, capacity flushes and the full
    flush before a barrier reduction, updating the books of `CommBuffers` in place.

    What the network does is a script fixed in advance but arbitrary: how many of the oldest
    sends complete at each test, how many buffers arrive at each poll, and what the messages in
    them do.  Past the end of the script every send completes at once and nothing arrives.

    Every method says exactly which messages it handled: those of the buffers that left the
    script.  What they, the caller's own sends and the callbacks put into buffers is `puts`. */
module CommObject {
  import opened CommBuffers
  import opened CommHistory

  predicate Less(a: (nat, nat, nat), b: (nat, nat, nat)) {
    a.0 < b.0 || (a.0 == b.0 && (a.1 < b.1 || (a.1 == b.1 && a.2 < b.2)))
  }

  lemma {:induction false} KeptAfterCheck(c: Network, s: Books, s': Books)
    requires Kept(c, s)
    requires s' == s.(sendQueue := s'.sendQueue, pendingBytes := PendingBytes(c, s'.sendQueue))
    ensures Kept(c, s')
  {
    forall d | 0 <= d < c.ranks ensures RankKept(c, s', d) {
      assert RankKept(c, s, d);
    }
  }

  class Comm {
    const layout: Network
    const nextHop: nat -> nat              // the router, or the identity when routing is off
    var buffers: seq<seq<Packet>>
    var localQueue: seq<nat>
    var remoteQueue: seq<nat>
    var localBytes: nat
    var remoteBytes: nat
    var sendQueue: seq<Sent>
    var pendingBytes: nat
    var sendCount: nat
    var recvCount: nat
    var callbacks: seq<Callback>           // m_pre_barrier_callbacks
    var inProcess: bool                    // m_in_process_receive_queue
    var inbox: seq<seq<Incoming>>          // script: the buffers still to arrive
    var arrivals: seq<nat>                 // script: arrivals at each poll
    var completions: seq<nat>              // script: sends completed at each test
    ghost var wire: seq<Sent>
    ghost var puts: seq<Put>               // every packet put into a buffer, in order
    ghost var forwarded: nat               // packets queued on behalf of other ranks

    /** What was ever put into each buffer. */
    ghost function Queued(): seq<seq<Packet>>
      reads this`puts
    {
      Placed(layout.ranks, puts)
    }

    ghost function View(): Books
      reads this`buffers, this`localQueue, this`remoteQueue, this`localBytes, this`remoteBytes, this`sendQueue,
            this`pendingBytes, this`wire, this`puts
    {
      Books(buffers, localQueue, remoteQueue, localBytes, remoteBytes, sendQueue, pendingBytes, wire, Queued())
    }

    ghost function Done(): Tally
      reads this`recvCount, this`sendCount, this`forwarded, this`callbacks, this`puts
    {
      Tally(recvCount, sendCount, forwarded, callbacks, puts)
    }

    ghost predicate SendsOk(sends: seq<Send>) {
      forall x :: x in sends ==> x.dest < layout.ranks && x.bytes >= 2
    }

    ghost predicate CallbacksOk(list: seq<Callback>)
      decreases list
    {
      forall x :: x in list ==> SendsOk(x.sends) && CallbacksOk(x.registers)
    }

    ghost predicate IncomingOk(m: Incoming) {
      match m
      case Execute(sends, registers) => SendsOk(sends) && CallbacksOk(registers)
      case Route(dest, bytes) => dest < layout.ranks && bytes >= 2
    }

    ghost predicate InboxOk(list: seq<seq<Incoming>>) {
      forall b :: b in list ==> BufferOk(b)
    }

    ghost predicate BufferOk(b: seq<Incoming>) {
      forall m :: m in b ==> IncomingOk(m)
    }

    ghost predicate Setup() {
      forall d: nat :: d < layout.ranks ==> nextHop(d) < layout.ranks
    }

    ghost predicate Valid()
      reads this`buffers, this`localQueue, this`remoteQueue, this`localBytes, this`remoteBytes, this`sendQueue,
            this`pendingBytes, this`wire, this`puts, this`callbacks, this`inbox, this`sendCount, this`forwarded
    {
      && Setup() && Kept(layout, View())
      && CallbacksOk(callbacks) && InboxOk(inbox)
      && |puts| == sendCount + forwarded
    }

    /** The messages that arrived were handled, all of them, and nothing else was done. */
    twostate predicate Received()
      reads this
    {
      Receiving(nextHop, old(Done()), Done(), old(inbox), inbox)
    }

    /** They were handled, and these messages were sent. */
    twostate predicate SentMeanwhile(sends: seq<Send>)
      reads this
    {
      SendingMeanwhile(nextHop, old(Done()), Done(), old(inbox), inbox, sends)
    }

    /** They were handled, and callbacks were run: what waits is what has not been done. */
    twostate predicate Notified()
      reads this
    {
      Notifying(nextHop, old(Done()), Done(), old(inbox), inbox)
    }

    /** What every internal step guarantees.  Only arriving buffers create work. */
    twostate predicate Evolved()
      reads this
    {
      && inProcess == old(inProcess) && Received()
      && |inbox| <= |old(inbox)| && |completions| <= |old(completions)|
      && (old(localBytes) <= layout.localCapacity ==> localBytes <= layout.localCapacity)
      && (old(remoteBytes) <= layout.remoteCapacity ==> remoteBytes <= layout.remoteCapacity)
      && (|inbox| == |old(inbox)| ==>
            && inbox == old(inbox) && Done() == old(Done())
            && localBytes <= old(localBytes) && remoteBytes <= old(remoteBytes)
            && |localQueue| <= |old(localQueue)| && |remoteQueue| <= |old(remoteQueue)|)
    }

    /** While a received buffer is handled nothing else arrives. */
    twostate predicate Undisturbed()
      reads this
    {
      old(inProcess) ==> inbox == old(inbox) && arrivals == old(arrivals)
    }

    constructor (layout: Network, nextHop: nat -> nat, inbox: seq<seq<Incoming>>, arrivals: seq<nat>,
                 completions: seq<nat>)
      ensures this.layout == layout && this.nextHop == nextHop
      ensures this.inbox == inbox && this.arrivals == arrivals && this.completions == completions
      ensures Setup() && InboxOk(inbox) ==> Valid()
      ensures Done() == Tally(0, 0, 0, [], []) && !inProcess
      ensures View() == Books(seq(layout.ranks, _ => []), [], [], 0, 0, [], 0, [], seq(layout.ranks, _ => []))
    {
      this.layout, this.nextHop := layout, nextHop;
      this.inbox, this.arrivals, this.completions := inbox, arrivals, completions;
      buffers, localQueue, remoteQueue := seq(layout.ranks, _ => []), [], [];
      localBytes, remoteBytes, sendQueue, pendingBytes := 0, 0, [], 0;
      sendCount, recvCount, callbacks, inProcess := 0, 0, [], false;
      wire, puts, forwarded := [], [], 0;
      new;
      assert Queued() == seq(layout.ranks, _ => []);
      FreshBooks(layout, View());
    }

    // ----- completing sends -----

    /** The oldest sends leave the queue, as many as have completed. */
    method CheckCompletedSends()
      requires pendingBytes == PendingBytes(layout, sendQueue)
      modifies this`sendQueue, this`pendingBytes, this`completions
      ensures pendingBytes == PendingBytes(layout, sendQueue)
      ensures if old(completions) == [] then completions == [] && sendQueue == []
              else
                && completions == old(completions)[1..]
                && (var k, n := old(completions)[0], |old(sendQueue)|;
                    sendQueue == old(sendQueue)[if k < n then k else n..])
    {
      var k := |sendQueue|;
      if completions != [] {
        k, completions := completions[0], completions[1..];
      }
      ghost var done: nat := 0;
      while k > 0 && sendQueue != []
        invariant pendingBytes == PendingBytes(layout, sendQueue)
        invariant k >= 0 && done <= |old(sendQueue)| && sendQueue == old(sendQueue)[done..]
        invariant k + done == if old(completions) == [] then |old(sendQueue)| else old(completions)[0]
        invariant completions == if old(completions) == [] then [] else old(completions)[1..]
      {
        HandleCompletedSend();
        sendQueue := sendQueue[1..];
        k, done := k - 1, done + 1;
      }
    }

    method HandleCompletedSend()
      requires sendQueue != [] && pendingBytes == PendingBytes(layout, sendQueue)
      modifies this`pendingBytes
      ensures pendingBytes == PendingBytes(layout, sendQueue[1..])
    {
      pendingBytes := pendingBytes - Bytes(layout, sendQueue[0].packets);
    }

    // ----- queueing -----

    /** Put a packet into the buffer of its next hop, as `async`, `queue_message_bytes` and
        the forwarding branch all do. */
    method Enqueue(d: nat, p: Packet)
      requires Kept(layout, View()) && d < layout.ranks && p.bytes >= 2
      modifies this`buffers, this`localQueue, this`remoteQueue, this`localBytes, this`remoteBytes, this`puts
      ensures View() == Append(layout, old(View()), d, p) && Kept(layout, View())
      ensures puts == old(puts) + [Put(d, p)]
    {
      AppendKeeps(layout, View(), d, p);
      PlacedOneMore(layout.ranks, puts, d, p);
      assert |buffers| == layout.ranks;
      hide Kept;
      hide Placed;
      ghost var books := Append(layout, View(), d, p);
      var local := layout.isLocal(d);
      if buffers[d] == [] {
        if local {
          localQueue := localQueue + [d];
        } else {
          remoteQueue := remoteQueue + [d];
        }
      }
      buffers := buffers[d := buffers[d] + [p]];
      puts := puts + [Put(d, p)];
      if local {
        localBytes := localBytes + Size(layout, p);
      } else {
        remoteBytes := remoteBytes + Size(layout, p);
      }
      assert View() == books;
    }

    /** `queue_message_bytes`: straight to the buffer of a broadcast partner. */
    method QueueMessageBytes(dest: nat, bytes: nat)
      requires Valid() && dest < layout.ranks && bytes >= 2
      modifies this`buffers, this`localQueue, this`remoteQueue, this`localBytes, this`remoteBytes, this`puts,
               this`sendCount
      ensures Valid() && sendCount == old(sendCount) + 1
      ensures View() == Append(layout, old(View()), dest, Packet(-1, bytes))
      ensures puts == old(puts) + [Put(dest, Packet(-1, bytes))]
    {
      sendCount := sendCount + 1;
      Enqueue(dest, Packet(-1, bytes));
    }

    // ----- flushing -----

    /** The send itself: the whole buffer of a destination goes to MPI. */
    method PostSend(dest: nat)
      requires dest < |buffers|
      requires Bytes(layout, buffers[dest]) <= if layout.isLocal(dest) then localBytes else remoteBytes
      modifies this`buffers, this`localBytes, this`remoteBytes, this`sendQueue, this`pendingBytes, this`wire
      ensures buffers == old(buffers)[dest := []]
      ensures sendQueue == old(sendQueue) + [Sent(dest, old(buffers)[dest])]
      ensures wire == old(wire) + [Sent(dest, old(buffers)[dest])]
      ensures pendingBytes == old(pendingBytes) + Bytes(layout, old(buffers)[dest])
      ensures localBytes == old(localBytes) - if layout.isLocal(dest) then Bytes(layout, old(buffers)[dest]) else 0
      ensures remoteBytes == old(remoteBytes) - if layout.isLocal(dest) then 0 else Bytes(layout, old(buffers)[dest])
    {
      var request := Sent(dest, buffers[dest]);
      buffers := buffers[dest := []];
      pendingBytes := pendingBytes + Bytes(layout, request.packets);
      if layout.isLocal(dest) {
        localBytes := localBytes - Bytes(layout, request.packets);
      } else {
        remoteBytes := remoteBytes - Bytes(layout, request.packets);
      }
      sendQueue := sendQueue + [request];
      wire := wire + [request];
    }

    /** Pop the first destination of a queue and hand its buffer to MPI: `flush_next_send` and
        `flush_send_buffer` up to the point where the latter looks for incoming messages. */
    method ShipNext(local: bool)
      requires Valid() && (if local then localQueue else remoteQueue) != []
      modifies this`buffers, this`localQueue, this`remoteQueue, this`localBytes, this`remoteBytes,
               this`sendQueue, this`pendingBytes, this`completions, this`wire
      ensures Kept(layout, View()) && |completions| <= |old(completions)|
      ensures if local then localBytes < old(localBytes) && localQueue == old(localQueue)[1..]
              else localBytes == old(localBytes) && localQueue == old(localQueue)
      ensures if local then remoteBytes == old(remoteBytes) && remoteQueue == old(remoteQueue)
              else remoteBytes < old(remoteBytes) && remoteQueue == old(remoteQueue)[1..]
      ensures var d := if local then old(localQueue)[0] else old(remoteQueue)[0];
        && d < |old(buffers)| && wire == old(wire) + [Sent(d, old(buffers)[d])]
        && buffers == old(buffers)[d := []]
    {
      ghost var before := View();
      FirstInQueue(layout, before, local);
      assert pendingBytes == PendingBytes(layout, sendQueue) && |buffers| == layout.ranks;
      hide Placed;
      hide Bytes;
      hide Kept;
      hide SideBytes;
      hide PendingBytes;
      hide CallbacksOk;
      hide InboxOk;
      var dest := if local then localQueue[0] else remoteQueue[0];
      if local {
        localQueue := localQueue[1..];
      } else {
        remoteQueue := remoteQueue[1..];
      }
      CheckCompletedSends();
      ghost var checked := before.(sendQueue := sendQueue, pendingBytes := pendingBytes);
      KeptAfterCheck(layout, before, checked);
      ShipKeeps(layout, checked, local);
      PostSend(dest);
      assert View() == Ship(layout, checked, local);
    }

    /** `flush_next_send`: nothing happens on an empty queue; after a send, incoming messages
        are processed unless that is what led here. */
    method FlushNextSend(local: bool)
      requires Valid()
      modifies this
      ensures Valid() && Evolved() && Undisturbed()
      ensures |inbox| == |old(inbox)| && local && old(localQueue) != [] ==> localBytes < old(localBytes)
      ensures |inbox| == |old(inbox)| && !local && old(remoteQueue) != [] ==> remoteBytes < old(remoteBytes)
      decreases !inProcess, 3
    {
      hide Receiving;
      hide Kept;
      hide Placed;
      hide Handled;
      ReceivingNone(nextHop, Done(), inbox);
      if (if local then localQueue else remoteQueue) != [] {
        ShipNext(local);
        if !inProcess {
          var _ := ProcessReceiveQueue();
        }
      }
    }

    /** `flush_to_capacity`. */
    method FlushToCapacity()
      requires Valid()
      modifies this
      ensures Valid() && Evolved() && Undisturbed()
      ensures localBytes <= layout.localCapacity && remoteBytes <= layout.remoteCapacity
      decreases !inProcess, 4
    {
      hide Receiving;
      ReceivingNone(nextHop, Done(), inbox);
      while localBytes > layout.localCapacity
        invariant Valid() && Evolved() && Undisturbed()
        decreases |inbox|, localBytes
      {
        BytesAreQueued(layout, View());
        assert localQueue != [];   // the debug assertion
        ghost var t, s := Done(), inbox;
        FlushNextSend(true);
        ReceivingTwice(nextHop, old(Done()), t, Done(), old(inbox), s, inbox);
      }
      while remoteBytes > layout.remoteCapacity
        invariant Valid() && Evolved() && Undisturbed()
        invariant localBytes <= layout.localCapacity
        decreases |inbox|, remoteBytes
      {
        BytesAreQueued(layout, View());
        assert remoteQueue != [];  // the debug assertion
        ghost var t, s := Done(), inbox;
        FlushNextSend(false);
        ReceivingTwice(nextHop, old(Done()), t, Done(), old(inbox), s, inbox);
      }
    }

    // ----- sending -----

    /** `check_if_production_halt_required`. */
    method CheckIfProductionHaltRequired()
      requires Valid()
      modifies this
      ensures Valid() && Evolved() && Undisturbed()
      ensures !old(inProcess) ==> pendingBytes <= layout.localCapacity + layout.remoteCapacity
      decreases !inProcess, 3
    {
      hide Kept;
      hide Receiving;
      ReceivingNone(nextHop, Done(), inbox);
      while !inProcess && pendingBytes > layout.localCapacity + layout.remoteCapacity
        invariant Valid() && Evolved() && Undisturbed()
        decreases |inbox|, |completions|, pendingBytes
      {
        ghost var t, s := Done(), inbox;
        var _ := ProcessReceiveQueue();
        ReceivingTwice(nextHop, old(Done()), t, Done(), old(inbox), s, inbox);
      }
    }

    /** The part of `async` that counts the message and puts it into the buffer. */
    method CountAndQueue(dest: nat, bytes: nat)
      requires Valid() && dest < layout.ranks && bytes >= 2
      modifies this`buffers, this`localQueue, this`remoteQueue, this`localBytes, this`remoteBytes, this`puts,
               this`sendCount
      ensures Valid() && sendCount == old(sendCount) + 1
      ensures puts == old(puts) + [Put(nextHop(dest), Packet(dest, bytes))]
      ensures nextHop(dest) < |old(Queued())|
      ensures Queued() == old(Queued())[nextHop(dest) := old(Queued())[nextHop(dest)] + [Packet(dest, bytes)]]
    {
      assert nextHop(dest) < layout.ranks;
      sendCount := sendCount + 1;
      Enqueue(nextHop(dest), Packet(dest, bytes));
    }

    /** `async`: the message is counted and put into the buffer of its next hop, once; besides,
        only messages that arrived are handled. */
    method AsyncSend(dest: nat, bytes: nat)
      requires Valid() && dest < layout.ranks && bytes >= 2
      modifies this
      ensures Valid() && inProcess == old(inProcess) && Undisturbed()
      ensures localBytes <= layout.localCapacity && remoteBytes <= layout.remoteCapacity
      ensures SentMeanwhile([Async(dest, bytes)])
      ensures |inbox| <= |old(inbox)| && |completions| <= |old(completions)|
      ensures inbox == old(inbox) ==>
                && Done() == old(Done()).(sent := old(sendCount) + 1,
                                          puts := old(puts) + [Put(nextHop(dest), Packet(dest, bytes))])
      decreases !inProcess, 5
    {
      hide Valid;
      hide Receiving;
      hide SendingMeanwhile;
      CheckIfProductionHaltRequired();
      ghost var t1, s1 := Done(), inbox;
      CountAndQueue(dest, bytes);
      ghost var t2 := Done();
      FlushToCapacity();
      ghost var own := [Async(dest, bytes)];
      ReceivingIsSending(nextHop, old(Done()), t1, old(inbox), s1);
      SendingOne(nextHop, t1, s1, own[0]);
      SendingThen(nextHop, old(Done()), t1, t2, old(inbox), s1, s1, [], own);
      ReceivingIsSending(nextHop, t2, Done(), s1, inbox);
      SendingThen(nextHop, old(Done()), t2, Done(), old(inbox), s1, inbox, [] + own, []);
      assert [] + own + [] == own;
    }

    method RunSends(sends: seq<Send>)
      requires Valid() && SendsOk(sends)
      modifies this
      ensures Valid() && inProcess == old(inProcess) && Undisturbed()
      ensures SentMeanwhile(sends)
      ensures |inbox| <= |old(inbox)| && |completions| <= |old(completions)|
      decreases !inProcess, 6, 1
    {
      hide Valid;
      hide SendingMeanwhile;
      hide Receiving;
      hide PutsOf;
      ReceivingNone(nextHop, Done(), inbox);
      ReceivingIsSending(nextHop, Done(), Done(), inbox, inbox);
      assert sends[..0] == [];
      for i := 0 to |sends|
        invariant Valid() && inProcess == old(inProcess) && Undisturbed()
        invariant SentMeanwhile(sends[..i])
        invariant |inbox| <= |old(inbox)| && |completions| <= |old(completions)|
      {
        assert sends[i] in sends;
        ghost var t, s := Done(), inbox;
        SendOne(sends[i]);
        SendingThen(nextHop, old(Done()), t, Done(), old(inbox), s, inbox, sends[..i], [sends[i]]);
        assert sends[..i] + [sends[i]] == sends[..i + 1];
      }
      assert sends[..|sends|] == sends;
    }

    method SendOne(x: Send)
      requires Valid() && x.dest < layout.ranks && x.bytes >= 2
      modifies this
      ensures Valid() && inProcess == old(inProcess) && Undisturbed()
      ensures SentMeanwhile([x])
      ensures |inbox| <= |old(inbox)| && |completions| <= |old(completions)|
      decreases !inProcess, 6, 0
    {
      hide Kept;
      hide CallbacksOk;
      hide SendingMeanwhile;
      match x
      case Async(dest, bytes) => AsyncSend(dest, bytes);
      case QueueBytes(dest, bytes) =>
        QueueMessageBytes(dest, bytes);
        SendingOne(nextHop, old(Done()), inbox, x);
    }

    // ----- receiving -----

    /** One message of an arrived buffer: run its handler, or queue it for its next hop.  Nothing
        arrives meanwhile, so what it counts and puts into buffers is known in order. */
    method HandleMessage(m: Incoming)
      requires Valid() && inProcess && IncomingOk(m)
      modifies this
      ensures Valid() && inProcess && Undisturbed() && |completions| <= |old(completions)|
      ensures Done() == Handled(nextHop, old(Done()), [m])
      ensures m.Execute? ==> recvCount == old(recvCount) + 1 && sendCount == old(sendCount) + |m.sends|
      ensures m.Execute? ==> callbacks == old(callbacks) + m.registers && forwarded == old(forwarded)
      ensures m.Route? ==> recvCount == old(recvCount) && sendCount == old(sendCount)
      ensures m.Route? ==> puts == old(puts) + [Put(nextHop(m.dest), Packet(m.dest, m.bytes))]
      decreases !inProcess, 7
    {
      hide Kept;
      hide Handled;
      hide SendingMeanwhile;
      OneMessage(nextHop, Done(), m);
      match m
      case Execute(sends, registers) =>
        RunSends(sends);
        SendingAlone(nextHop, old(Done()), Done(), inbox, inbox, sends);
        CallbacksAppend(callbacks, registers);
        callbacks := callbacks + registers;
        recvCount := recvCount + 1;
      case Route(dest, bytes) =>
        Forward(dest, bytes);
    }

    /** The branch for a message to another rank: it is put into the buffer of its next hop, for
        the same destination. */
    method Forward(dest: nat, bytes: nat)
      requires Valid() && inProcess && dest < layout.ranks && bytes >= 2
      modifies this
      ensures Valid() && inProcess && Undisturbed() && |completions| <= |old(completions)|
      ensures Done() == old(Done()).(forwarded := old(forwarded) + 1,
                                     puts := old(puts) + [Put(nextHop(dest), Packet(dest, bytes))])
      ensures nextHop(dest) < |old(Queued())|
      ensures Queued() == old(Queued())[nextHop(dest) := old(Queued())[nextHop(dest)] + [Packet(dest, bytes)]]
      decreases !inProcess, 6
    {
      hide Kept;
      hide CallbacksOk;
      assert nextHop(dest) < layout.ranks;
      forwarded := forwarded + 1;
      Enqueue(nextHop(dest), Packet(dest, bytes));
      FlushToCapacity();
    }

    lemma {:induction false} CallbacksAppend(a: seq<Callback>, b: seq<Callback>)
      requires CallbacksOk(a) && CallbacksOk(b)
      ensures CallbacksOk(a + b)
    {
    }

    /** `handle_next_receive`: every message of an arrived buffer is executed and counted, or
        forwarded and not counted; what handlers send is counted once. */
    method HandleNextReceive(b: seq<Incoming>)
      requires Valid() && inProcess && BufferOk(b)
      modifies this
      ensures Valid() && inProcess && Undisturbed() && |completions| <= |old(completions)|
      ensures localBytes <= layout.localCapacity && remoteBytes <= layout.remoteCapacity
      ensures Done() == Handled(nextHop, old(Done()), b)
      decreases !inProcess, 8
    {
      assert forall i :: 0 <= i < |b| ==> IncomingOk(b[i]);
      assert b[..0] == [];
      HandledNone(nextHop, Done());
      hide Kept;
      hide CallbacksOk;
      hide Handled;
      hide InboxOk;
      hide BufferOk;
      for i := 0 to |b|
        invariant Valid() && inProcess && Undisturbed() && |completions| <= |old(completions)|
        invariant Done() == Handled(nextHop, old(Done()), b[..i])
      {
        OneMoreMessage(nextHop, old(Done()), b, i);
        HandleMessage(b[i]);
      }
      assert b[..|b|] == b;
      FlushToCapacity();
    }

    /** `local_process_incoming`: the buffers that are ready are taken from the network, in
        order, and the messages in them handled. */
    method LocalProcessIncoming() returns (received: bool)
      requires Valid() && inProcess
      modifies this
      ensures Valid() && Evolved()
      ensures received <==> inbox != old(inbox)
      ensures var ready := if old(arrivals) == [] then 0 else old(arrivals)[0];
        |inbox| == if ready < |old(inbox)| then |old(inbox)| - ready else 0
      ensures !received ==> View() == old(View()) && completions == old(completions)
      decreases !inProcess, 9
    {
      hide Kept;
      hide CallbacksOk;
      hide Receiving;
      hide Handled;
      var ready := 0;
      if arrivals != [] {
        ready, arrivals := arrivals[0], arrivals[1..];
      }
      received := false;
      ghost var all := ready;
      ReceivingNone(nextHop, Done(), inbox);
      while ready > 0 && inbox != []
        invariant Valid() && inProcess && Evolved()
        invariant |inbox| + all == |old(inbox)| + ready && ready <= all
        invariant received <==> ready < all
        invariant !received ==> View() == old(View()) && completions == old(completions)
      {
        var buffer := inbox[0];
        assert buffer in inbox;
        ghost var t, s := Done(), inbox;
        ReceivingOne(nextHop, t, s);
        inbox := inbox[1..];
        ready, received := ready - 1, true;
        HandleNextReceive(buffer);
        ReceivingTwice(nextHop, old(Done()), t, Done(), old(inbox), s, inbox);
      }
    }

    /** The test for completed sends keeps the books. */
    method CompleteSends()
      requires Valid()
      modifies this`sendQueue, this`pendingBytes, this`completions
      ensures Valid() && |sendQueue| <= |old(sendQueue)|
      ensures old(completions) == [] ==> sendQueue == [] && completions == [] && pendingBytes == 0
      ensures old(completions) != [] ==> |completions| < |old(completions)|
    {
      ghost var before := View();
      CheckCompletedSends();
      KeptAfterCheck(layout, before, View());
    }

    /** `process_receive_queue`. */
    method ProcessReceiveQueue() returns (received: bool)
      requires Valid() && !inProcess
      modifies this
      ensures Valid() && Evolved()
      ensures received <==> |inbox| < |old(inbox)|
      ensures !received ==> |sendQueue| <= |old(sendQueue)|
      ensures !received && old(completions) == [] ==> sendQueue == [] && completions == [] && pendingBytes == 0
      ensures !received && old(completions) != [] ==> |completions| < |old(completions)|
      ensures !received ==> localBytes == old(localBytes) && remoteBytes == old(remoteBytes)
      ensures !received ==> localQueue == old(localQueue) && remoteQueue == old(remoteQueue)
      decreases !inProcess, 1
    {
      hide Valid;
      hide Receiving;
      hide Placed;
      hide Handled;
      inProcess := true;
      CompleteSends();
      received := LocalProcessIncoming();
      inProcess := false;
    }

    // ----- the full flush -----

    /** What is left to do, compared lexicographically: only an arriving buffer can add
        callbacks, and only a callback or a handler can add bytes. */
    ghost function ToDo(): (nat, nat, nat)
      reads this
    {
      (|inbox|, Work(callbacks), localBytes + remoteBytes)
    }

    twostate predicate Untouched()
      reads this
    {
      && inbox == old(inbox) && Done() == old(Done())
      && localBytes == old(localBytes) && remoteBytes == old(remoteBytes)
      && localQueue == old(localQueue) && remoteQueue == old(remoteQueue)
    }

    /** What each phase of the full flush guarantees; `did` is its share of `did_something`. */
    twostate predicate Phase(did: bool)
      reads this
    {
      && inProcess == old(inProcess) && Notified()
      && if did then Less(ToDo(), old(ToDo())) else Untouched()
    }

    lemma {:induction false} CallbacksRest(list: seq<Callback>)
      requires CallbacksOk(list) && list != []
      ensures CallbacksOk(list[1..]) && SendsOk(list[0].sends) && CallbacksOk(list[0].registers)
    {
      assert forall x :: x in list[1..] ==> x in list;
    }

    /** The oldest callback is run: what it sends is counted, what it registers waits. */
    method RunFirstCallback()
      requires Valid() && !inProcess && callbacks != []
      modifies this
      ensures Valid() && Phase(true)
      ensures |inbox| < |old(inbox)| || (|inbox| == |old(inbox)| && Work(callbacks) < Work(old(callbacks)))
      ensures |inbox| == |old(inbox)| ==>
                var fn := old(callbacks)[0];
                && callbacks == old(callbacks)[1..] + fn.registers
                && puts == old(puts) + PutsOf(nextHop, fn.sends)
    {
      hide Kept;
      hide Placed;
      hide CallbacksOk;
      hide Work;
      hide SendingMeanwhile;
      hide Accounted;
      CallbacksRest(callbacks);
      var fn := callbacks[0];
      callbacks := callbacks[1..];
      ghost var rest := Done();
      RunSends(fn.sends);
      if |inbox| == |old(inbox)| {
        SendingAlone(nextHop, rest, Done(), old(inbox), inbox, fn.sends);
      }
      RunNotifies(nextHop, old(Done()), Done(), old(inbox), inbox);
      CallbacksAppend(callbacks, fn.registers);
      WorkAppend(rest.callbacks, fn.registers);
      WorkFirst(old(callbacks));
      callbacks := callbacks + fn.registers;
    }

    /** Notify the registered barrier watchers: everything they send, and everything that the
        callbacks they register send, is sent and counted. */
    method RunCallbacks() returns (did: bool)
      requires Valid() && !inProcess
      modifies this
      ensures Valid() && Phase(did) && callbacks == []
      ensures !did ==> sendQueue == old(sendQueue)
    {
      hide Valid;
      hide Notifying;
      hide Receiving;
      hide Work;
      did := false;
      NotifyingNone(nextHop, Done(), inbox);
      while callbacks != []
        invariant Valid() && Phase(did) && |inbox| <= |old(inbox)|
        invariant !did ==> sendQueue == old(sendQueue)
        decreases |inbox|, Work(callbacks)
      {
        did := true;
        ghost var t, s := Done(), inbox;
        RunFirstCallback();
        NotifyingTwice(nextHop, old(Done()), t, Done(), old(inbox), s, inbox);
      }
    }

    /** Flush each send buffer on one side. */
    method FlushSide(local: bool) returns (did: bool)
      requires Valid() && !inProcess
      modifies this
      ensures Valid() && Phase(did)
      ensures if local then localQueue == [] else remoteQueue == []
      ensures !did ==> sendQueue == old(sendQueue)
    {
      hide Valid;
      hide Notifying;
      hide Receiving;
      hide Work;
      did := false;
      NotifyingNone(nextHop, Done(), inbox);
      while (if local then localQueue else remoteQueue) != []
        invariant Valid() && Phase(did)
        invariant !did ==> sendQueue == old(sendQueue)
        decreases |inbox|, if local then localBytes else remoteBytes
      {
        did := true;
        ghost var t, s := Done(), inbox;
        FlushAndReceive(local);
        NotifyingTwice(nextHop, old(Done()), t, Done(), old(inbox), s, inbox);
      }
    }

    /** The body of its loop. */
    method FlushAndReceive(local: bool)
      requires Valid() && !inProcess && (if local then localQueue else remoteQueue) != []
      modifies this
      ensures Valid() && Evolved() && Notified()
      ensures |inbox| == |old(inbox)| ==>
                if local then localBytes < old(localBytes) else remoteBytes < old(remoteBytes)
    {
      hide Valid;
      hide Notifying;
      hide Receiving;
      hide Work;
      FlushNextSend(local);
      ghost var t, s := Done(), inbox;
      var _ := ProcessReceiveQueue();
      ReceivingTwice(nextHop, old(Done()), t, Done(), old(inbox), s, inbox);
      ReceivingIsNotifying(nextHop, old(Done()), Done(), old(inbox), inbox);
    }

    /** Wait on isends. */
    method WaitOnSends() returns (did: bool)
      requires Valid() && !inProcess
      modifies this
      ensures Valid() && Phase(did) && sendQueue == []
    {
      hide Valid;
      hide Notifying;
      hide Receiving;
      hide Work;
      did := false;
      NotifyingNone(nextHop, Done(), inbox);
      while sendQueue != []
        invariant Valid() && Phase(did)
        invariant did ==> |inbox| < |old(inbox)|
        decreases |inbox|, |completions|, |sendQueue|
      {
        ghost var t, s := Done(), inbox;
        var received := ProcessReceiveQueue();
        did := did || received;
        ReceivingIsNotifying(nextHop, t, Done(), s, inbox);
        NotifyingTwice(nextHop, old(Done()), t, Done(), old(inbox), s, inbox);
      }
    }

    /** With nothing queued and no send pending, all bytes have left and every packet was sent. */
    lemma {:induction false} NothingLeft()
      requires Valid() && localQueue == [] && remoteQueue == [] && sendQueue == []
      ensures localBytes == 0 && remoteBytes == 0 && pendingBytes == 0 && |buffers| == layout.ranks
      ensures forall d :: 0 <= d < layout.ranks ==> buffers[d] == [] && PlacedAt(puts, d) == Shipped(wire, d)
    {
      BytesAreQueued(layout, View());
      forall d | 0 <= d < layout.ranks ensures buffers[d] == [] && PlacedAt(puts, d) == Shipped(wire, d) {
        EmptyQueuesShippedAll(layout, View(), d);
      }
    }

    /** `flush_all_local_and_process_incoming`: returns only with every queue, buffer and send
        empty and no callback pending, which is what the barrier asserts afterwards.  What it
        counted and handed to MPI is what the messages that arrived, the callbacks that waited
        and the callbacks that these registered were to do, no more and no less. */
    method FlushAllLocalAndProcessIncoming()
      requires Valid() && !inProcess
      modifies this
      ensures Valid() && !inProcess && Later(old(inbox), inbox)
      ensures localQueue == [] && remoteQueue == [] && sendQueue == [] && callbacks == []
      ensures localBytes == 0 && remoteBytes == 0 && pendingBytes == 0 && |buffers| == layout.ranks
      ensures forall d :: 0 <= d < layout.ranks ==> buffers[d] == [] && PlacedAt(puts, d) == Shipped(wire, d)
      ensures var b := Arrived(old(inbox), inbox);
        var ran := CallbackPuts(nextHop, old(callbacks) + RegistersIn(b));
        && recvCount == old(recvCount) + Executes(b) && forwarded == old(forwarded) + Routes(b)
        && sendCount == old(sendCount) + SendsIn(b) + |ran|
        && old(puts) <= puts
        && multiset(puts) == multiset(old(puts)) + multiset(PutsIn(nextHop, b)) + multiset(ran)
    {
      hide Valid;
      hide Notifying;
      hide Work;
      hide Arrived;
      var didSomething := true;
      NotifyingNone(nextHop, Done(), inbox);
      while didSomething
        invariant Valid() && !inProcess && Notified()
        invariant !didSomething ==> localQueue == [] && remoteQueue == [] && sendQueue == [] && callbacks == []
        decreases ToDo().0, ToDo().1, ToDo().2, didSomething
      {
        ghost var t, s := Done(), inbox;
        didSomething := FlushOnce();
        NotifyingTwice(nextHop, old(Done()), t, Done(), old(inbox), s, inbox);
      }
      NothingLeft();
      AllNotified(nextHop, old(Done()), Done(), old(inbox), inbox);
    }

    /** The body of its loop. */
    method FlushOnce() returns (did: bool)
      requires Valid() && !inProcess
      modifies this
      ensures Valid() && Phase(did)
      ensures !did ==> localQueue == [] && remoteQueue == [] && sendQueue == [] && callbacks == []
    {
      hide Valid;
      hide Notifying;
      hide Receiving;
      hide Work;
      ghost var t0, s0 := Done(), inbox;
      var ran := ReceiveAndNotify();
      ghost var t1, s1 := Done(), inbox;
      var flushed := FlushSides();
      ghost var t2, s2 := Done(), inbox;
      var received := WaitOnSends();
      NotifyingTwice(nextHop, t0, t1, t2, s0, s1, s2);
      NotifyingTwice(nextHop, t0, t2, Done(), s0, s2, inbox);
      did := ran || flushed || received;
    }

    method ReceiveAndNotify() returns (did: bool)
      requires Valid() && !inProcess
      modifies this
      ensures Valid() && Phase(did) && (!did ==> callbacks == [])
    {
      hide Valid;
      hide Notifying;
      hide Receiving;
      hide Work;
      ghost var t0, s0 := Done(), inbox;
      did := ProcessReceiveQueue();
      ghost var t1, s1 := Done(), inbox;
      ReceivingIsNotifying(nextHop, t0, t1, s0, s1);
      var ran := RunCallbacks();
      NotifyingTwice(nextHop, t0, t1, Done(), s0, s1, inbox);
      did := did || ran;
    }

    method FlushSides() returns (did: bool)
      requires Valid() && !inProcess
      modifies this
      ensures Valid() && Phase(did) && (!did ==> localQueue == [] && remoteQueue == [])
    {
      hide Valid;
      hide Notifying;
      hide Receiving;
      hide Work;
      ghost var t0, s0 := Done(), inbox;
      did := FlushSide(true);
      ghost var t1, s1 := Done(), inbox;
      var flushed := FlushSide(false);
      NotifyingTwice(nextHop, t0, t1, Done(), s0, s1, inbox);
      did := did || flushed;
    }
  }

  lemma {:induction false} FreshBooks(c: Network, s: Books)
    requires s == Books(seq(c.ranks, _ => []), [], [], 0, 0, [], 0, [], seq(c.ranks, _ => []))
    ensures Kept(c, s)
  {
    SideBytesZero(c, s.buffers, true, c.ranks);
    SideBytesZero(c, s.buffers, false, c.ranks);
    forall d | 0 <= d < c.ranks ensures RankKept(c, s, d) {
    }
  }
}
