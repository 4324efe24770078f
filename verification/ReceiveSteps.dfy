/** A buffer that the communicator of one rank receives, seen from the barrier: it is one step
    of the termination detector for every message in it. */
module ReceiveSteps {
  import opened Barrier
  import C = CommObject
  import H = CommHistory

  /** The steps for the messages of a buffer, each of which is the first on the wire. */
  function StepsOf(i: nat, b: seq<H.Incoming>): seq<BLabel> {
    if b == [] then []
    else
      StepsOf(i, b[..|b| - 1]) + [
        match b[|b| - 1]
        case Execute(sends, registers) => BLabel.Execute(i, 0, |sends|, |registers|)
        case Route(_, _) => BLabel.Forward(i, 0)
      ]
  }

  function After(s: BState, labels: seq<BLabel>): BState {
    if labels == [] then s else Next(After(s, labels[..|labels| - 1]), labels[|labels| - 1])
  }

  /** Rank `i` is where it can receive, and the buffer is on its wire. */
  ghost predicate CanReceive(s: BState, i: nat, n: nat) {
    i < |s.ranks| == |s.wire| && n <= |s.wire[i]| && !s.ranks[i].exited && !s.ranks[i].returning
  }

  /** From `s` to `s'`, rank `i` took `n` messages from its wire, ran `runs` of them, sent
      `sends`, forwarded `routes` and registered `registers` callbacks; nobody else did anything. */
  ghost predicate Received(s: BState, s': BState, i: nat, n: nat, runs: nat, sends: nat, routes: nat, registers: nat)
    requires i < |s.ranks| == |s.wire|
  {
    && |s'.ranks| == |s'.wire| == |s.ranks| && |s'.wire[i]| + n == |s.wire[i]|
    && (var r, r' := s.ranks[i], s'.ranks[i];
        && r'.counts == Counts(r.counts.recv + runs, r.counts.send + sends)
        && |r'.buffered| == |r.buffered| + sends + routes && r'.callbacks == r.callbacks + registers
        && r'.exited == r.exited && r'.returning == r.returning)
    && forall j :: 0 <= j < |s.ranks| && j != i ==> s'.ranks[j] == s.ranks[j] && s'.wire[j] == s.wire[j]
  }

  lemma {:induction false} OneMessage(s: BState, i: nat, m: H.Incoming)
    requires CanReceive(s, i, 1)
    ensures match m
      case Execute(sends, registers) =>
        Received(s, Next(s, BLabel.Execute(i, 0, |sends|, |registers|)), i, 1, 1, |sends|, 0, |registers|)
      case Route(_, _) => Received(s, Next(s, BLabel.Forward(i, 0)), i, 1, 0, 0, 1, 0)
  {
  }

  /** The steps count exactly what the buffer holds: each handler once, what handlers send once,
      and forwarded messages not at all. */
  lemma {:induction false} BufferIsSteps(s: BState, i: nat, b: seq<H.Incoming>)
    requires CanReceive(s, i, |b|)
    ensures Received(s, After(s, StepsOf(i, b)), i, |b|, H.Executes(b), H.SendsIn(b), H.Routes(b), |H.RegistersIn(b)|)
  {
    hide Next;
    if b != [] {
      var before, steps := b[..|b| - 1], StepsOf(i, b);
      BufferIsSteps(s, i, before);
      assert steps[..|steps| - 1] == StepsOf(i, before);
      OneMessage(After(s, StepsOf(i, before)), i, b[|b| - 1]);
    }
  }

  lemma {:induction false} PutsCount(nextHop: nat -> nat, b: seq<H.Incoming>)
    ensures |H.PutsIn(nextHop, b)| == H.SendsIn(b) + H.Routes(b)
  {
    if b != [] {
      PutsCount(nextHop, b[..|b| - 1]);
    }
  }

  /** The counters of the communicator are those of rank `i`, and all it ever queued is still
      buffered there, but for what it has flushed. */
  ghost predicate Matches(c: C.Comm, s: BState, i: nat, flushed: nat)
    reads c
    requires i < |s.ranks|
  {
    var r := s.ranks[i];
    && r.counts == Counts(c.recvCount, c.sendCount) && r.callbacks == |c.callbacks|
    && |r.buffered| + flushed == |c.puts|
  }

  /** Handling a received buffer is taking these steps, up to the flushes in between. */
  method ReceiveBuffer(c: C.Comm, b: seq<H.Incoming>, ghost s: BState, ghost i: nat, ghost flushed: nat)
    requires c.Valid() && c.inProcess && c.BufferOk(b)
    requires CanReceive(s, i, |b|) && Matches(c, s, i, flushed)
    modifies c
    ensures c.Valid() && c.inProcess
    ensures i < |After(s, StepsOf(i, b)).ranks| && Matches(c, After(s, StepsOf(i, b)), i, flushed)
  {
    c.HandleNextReceive(b);
    BufferIsSteps(s, i, b);
    PutsCount(c.nextHop, b);
  }
}
