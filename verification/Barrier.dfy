/** `comm::barrier` as a termination detector: ranks repeatedly sum their message counters,
    without stopping, until two consecutive global sums are equal and balanced.

    A message is counted when `async` is called and again when its handler has run; in between
    it sits in send buffers or on the wire, possibly of intermediate ranks.  The collective sum
    of a round completes on a rank only after all ranks have contributed to it (section 5.12
    of MPI 3.1, MPI_Iallreduce).  After the loop a last reduction tells whether all ranks are in
    a full barrier; the counters are never reset, so a program may go through any number of
    barriers, and ranks return from each of them one by one. */
module Barrier {
  import opened Sequences

  // ----- sums over ranks -----

  function Sum(s: seq<nat>): nat {
    if s == [] then 0 else s[0] + Sum(s[1..])
  }

  lemma {:induction false} SumUpdate(s: seq<nat>, i: nat, v: nat)
    requires i < |s|
    ensures Sum(s[i := v]) == Sum(s) - s[i] + v
    ensures s[i] <= Sum(s)
  {
    if i > 0 {
      SumUpdate(s[1..], i - 1, v);
      assert s[i := v][1..] == s[1..][i - 1 := v];
    }
  }

  lemma {:induction false} SumZero(s: seq<nat>, i: nat)
    requires Sum(s) == 0 && i < |s|
    ensures s[i] == 0
  {
    SumUpdate(s, i, 0);
  }

  predicate AtMost(s: seq<nat>, t: seq<nat>) {
    |s| == |t| && forall i :: 0 <= i < |s| ==> s[i] <= t[i]
  }

  lemma {:induction false} SumMonotone(s: seq<nat>, t: seq<nat>)
    requires AtMost(s, t)
    ensures Sum(s) <= Sum(t)
    ensures Sum(s) == Sum(t) ==> s == t
  {
    if s != [] {
      SumMonotone(s[1..], t[1..]);
      assert s == [s[0]] + s[1..] && t == [t[0]] + t[1..];
    }
  }

  // ----- the state -----

  /** `m_recv_count` and `m_send_count`. */
  datatype Counts = Counts(recv: nat, send: nat)

  /** A message, by the number of barriers its sender had returned from.  The number is
      auxiliary: no step depends on it. */
  type Message = nat

  datatype Rank = Rank(
    counts: Counts,
    callbacks: nat,          // pre-barrier callbacks registered and not yet run
    buffered: seq<Message>,  // messages in its send buffers, its own and forwarded ones
    inBarrier: bool,
    full: bool,              // called by barrier(), not by async_barrier()
    waiting: bool,           // inside barrier_reduce_counts
    exited: bool,            // past the counting loop, in the last reduction
    returning: bool,         // the last reduction is complete, but this rank has not returned
    era: nat,                // how often it has returned from priv_barrier
    snaps: seq<Counts>)      // what it contributed to each round of this barrier

  /** `mids[k]` records the counters of all ranks at the moment the last rank entered
      reduction `k`, and `agreed` counts the barriers that all ranks have left the loop of; both
      are auxiliary.  `verdict` is the outcome of the latest of the last reductions. */
  datatype BState = BState(ranks: seq<Rank>, wire: seq<seq<Message>>, mids: seq<seq<Counts>>, agreed: nat,
                           verdict: bool)

  datatype BLabel =
    | UserSend(i: nat)                                        // async outside the barrier
    | UserRegister(i: nat)                                    // register_pre_barrier_callback
    | EnterBarrier(i: nat, full: bool)                        // barrier or async_barrier
    | Execute(i: nat, k: nat, sends: nat, registers: nat)     // run the handler of a message
    | Forward(i: nat, k: nat)                                 // route a message on
    | RunCallback(i: nat, sends: nat, registers: nat)
    | Flush(i: nat, k: nat, to: nat)                          // hand a buffered message to MPI
    | EnterRound(i: nat)
    | CompleteRound(i: nat)
    | Agree(i: nat)                                           // the last reduction, on behalf of all
    | Return(i: nat)                                          // from the last reduction

  function Recvs(s: BState): seq<nat> { seq(|s.ranks|, i requires 0 <= i < |s.ranks| => s.ranks[i].counts.recv) }
  function Sents(s: BState): seq<nat> { seq(|s.ranks|, i requires 0 <= i < |s.ranks| => s.ranks[i].counts.send) }
  function Buffers(s: BState): seq<nat> { seq(|s.ranks|, i requires 0 <= i < |s.ranks| => |s.ranks[i].buffered|) }
  function Wires(s: BState): seq<nat> { seq(|s.wire|, i requires 0 <= i < |s.wire| => |s.wire[i]|) }

  /** All ranks have contributed to reduction `k`. */
  predicate AllEntered(s: BState, k: nat) {
    forall i :: 0 <= i < |s.ranks| ==> |s.ranks[i].snaps| > k
  }

  /** The global sums of reduction `k`. */
  function Total(s: BState, k: nat): Counts
    requires AllEntered(s, k)
  {
    Counts(Sum(SnapRecvs(s, k)), Sum(SnapSents(s, k)))
  }

  function SnapRecvs(s: BState, k: nat): seq<nat>
    requires AllEntered(s, k)
  {
    seq(|s.ranks|, i requires 0 <= i < |s.ranks| => s.ranks[i].snaps[k].recv)
  }

  function SnapSents(s: BState, k: nat): seq<nat>
    requires AllEntered(s, k)
  {
    seq(|s.ranks|, i requires 0 <= i < |s.ranks| => s.ranks[i].snaps[k].send)
  }

  /** The loop of `priv_barrier` stops after reduction `k`; before the first one its
      variables hold the unequal pair (3, 4). */
  predicate Stops(s: BState, k: nat)
    requires AllEntered(s, k)
  {
    var current := Total(s, k);
    var previous := if k == 0 then Counts(3, 4) else Total(s, k - 1);
    current.recv == current.send && previous == current
  }

  // ----- the steps -----

  function Set(s: BState, i: nat, r: Rank): BState
    requires i < |s.ranks|
  {
    s.(ranks := s.ranks[i := r])
  }

  function Copies(n: nat, m: Message): seq<Message> {
    seq(n, _ => m)
  }

  predicate Enabled(s: BState, l: BLabel) {
    l.i < |s.ranks| && l.i < |s.wire| &&
    var r := s.ranks[l.i];
    match l
    case UserSend(_) => !r.inBarrier
    case UserRegister(_) => !r.inBarrier
    case EnterBarrier(_, _) => !r.inBarrier
    case Execute(_, k, _, _) => k < |s.wire[l.i]| && !r.exited && !r.returning
    case Forward(_, k) => k < |s.wire[l.i]| && !r.exited && !r.returning
    case RunCallback(_, _, _) => r.callbacks > 0 && !r.exited && !r.returning
    case Flush(_, k, to) => k < |r.buffered| && to < |s.wire| && !r.exited && !r.returning
    case EnterRound(_) =>
      r.inBarrier && !r.waiting && !r.exited && !r.returning && r.callbacks == 0 && r.buffered == []
    case CompleteRound(_) =>
      r.waiting && r.callbacks == 0 && r.buffered == [] && |r.snaps| > 0 && AllEntered(s, |r.snaps| - 1)
    case Agree(_) => forall j :: 0 <= j < |s.ranks| ==> s.ranks[j].exited
    case Return(_) => r.returning
  }

  function CurrentCounts(s: BState): seq<Counts> {
    seq(|s.ranks|, i requires 0 <= i < |s.ranks| => s.ranks[i].counts)
  }

  function Enter(s: BState, i: nat): BState
    requires i < |s.ranks|
  {
    var r := s.ranks[i];
    var s' := Set(s, i, r.(waiting := true, snaps := r.snaps + [r.counts]));
    if AllEntered(s', |s.mids|) then s'.(mids := s.mids + [CurrentCounts(s')]) else s'
  }

  /** A rank leaves the loop for the last reduction, and waits in it for the others. */
  function Reset(r: Rank): Rank {
    r.(exited := false, returning := true, snaps := [])
  }

  /** The last reduction completes: its result is whether all ranks are in a full barrier. */
  function Agreement(s: BState): BState {
    s.(ranks := seq(|s.ranks|, j requires 0 <= j < |s.ranks| => Reset(s.ranks[j])), mids := [],
       agreed := s.agreed + 1, verdict := forall j :: 0 <= j < |s.ranks| ==> s.ranks[j].full)
  }

  predicate IsLocal(l: BLabel) {
    !l.EnterRound? && !l.CompleteRound? && !l.Agree?
  }

  /** What a step of one rank outside the reductions does: the rank's new state, and the new
      content of one wire. */
  datatype Effect = Effect(rank: Rank, w: nat, q: seq<Message>)

  function LocalStep(s: BState, l: BLabel): (e: Effect)
    requires Enabled(s, l) && IsLocal(l)
  {
    var r := s.ranks[l.i];
    match l
    case UserSend(i) =>
      Effect(r.(counts := r.counts.(send := r.counts.send + 1), buffered := r.buffered + [r.era]), i, s.wire[i])
    case UserRegister(i) => Effect(r.(callbacks := r.callbacks + 1), i, s.wire[i])
    case EnterBarrier(i, full) => Effect(r.(inBarrier := true, full := full), i, s.wire[i])
    case Execute(i, k, sends, registers) =>
      Effect(r.(counts := Counts(r.counts.recv + 1, r.counts.send + sends),
                buffered := r.buffered + Copies(sends, r.era),
                callbacks := r.callbacks + registers), i, Without(s.wire[i], k))
    case Forward(i, k) => Effect(r.(buffered := r.buffered + [s.wire[i][k]]), i, Without(s.wire[i], k))
    case RunCallback(i, sends, registers) =>
      Effect(r.(counts := r.counts.(send := r.counts.send + sends),
                buffered := r.buffered + Copies(sends, r.era),
                callbacks := r.callbacks - 1 + registers), i, s.wire[i])
    case Flush(i, k, to) => Effect(r.(buffered := Without(r.buffered, k)), to, s.wire[to] + [r.buffered[k]])
    case Return(i) =>
      Effect(r.(returning := false, era := r.era + 1, inBarrier := r.full && !s.verdict), i, s.wire[i])
  }

  function Apply(s: BState, i: nat, e: Effect): BState
    requires i < |s.ranks| && e.w < |s.wire|
  {
    s.(ranks := s.ranks[i := e.rank], wire := s.wire[e.w := e.q])
  }

  function Next(s: BState, l: BLabel): BState {
    if !Enabled(s, l) then s
    else if l.EnterRound? then Enter(s, l.i)
    else if l.CompleteRound? then
      var r := s.ranks[l.i];
      Set(s, l.i, r.(waiting := false, exited := Stops(s, |r.snaps| - 1)))
    else if l.Agree? then Agreement(s)
    else Apply(s, l.i, LocalStep(s, l))
  }

  function Fresh(n: nat): BState {
    BState(seq(n, _ => Rank(Counts(0, 0), 0, [], false, false, false, false, false, 0, [])), seq(n, _ => []), [], 0,
           false)
  }

  function Run(n: nat, labels: seq<BLabel>): BState {
    if labels == [] then Fresh(n) else Next(Run(n, labels[..|labels| - 1]), labels[|labels| - 1])
  }

  // ----- the invariant -----

  predicate LeqCounts(a: Counts, b: Counts) {
    a.recv <= b.recv && a.send <= b.send
  }

  /** What holds of each rank by itself. */
  ghost predicate RankBase(s: BState, r: Rank) {
    var n := |r.snaps|;
    && (!r.inBarrier ==> n == 0)
    && (r.waiting ==> n > 0 && !r.exited)
    && (r.exited ==> n > 0)
    && (r.returning ==> r.inBarrier && n == 0)
    && (r.returning && s.verdict ==> r.full)
    && |s.mids| <= n <= |s.mids| + 1
    && (n == |s.mids| + 1 ==> r.waiting)
    && (n > 0 ==> LeqCounts(r.snaps[n - 1], r.counts) && (r.counts == r.snaps[n - 1] ==> r.callbacks == 0))
  }

  ghost predicate RankOk(s: BState, i: nat)
    requires i < |s.ranks|
  {
    && RankBase(s, s.ranks[i])
    && (forall k :: 0 <= k < |s.mids| ==> Between(s, i, k))
    && (forall k :: 0 <= k < |s.mids| ==> Passed(s, i, k))
  }

  /** The counters at the middle of round `k` lie between the snapshots around it. */
  ghost predicate Between(s: BState, i: nat, k: nat)
    requires i < |s.ranks| && k < |s.mids|
  {
    var r := s.ranks[i];
    && |s.mids[k]| == |s.ranks|
    && k < |r.snaps| && LeqCounts(r.snaps[k], s.mids[k][i])
    && LeqCounts(s.mids[k][i], r.counts)
    && (k + 1 < |r.snaps| ==> LeqCounts(s.mids[k][i], r.snaps[k + 1]))
  }

  /** Rank `i` has left the loop after round `k` exactly when the sums told it to. */
  ghost predicate Passed(s: BState, i: nat, k: nat)
    requires i < |s.ranks|
  {
    var r := s.ranks[i];
    && (k + 1 < |r.snaps| ==> AllEntered(s, k) && !Stops(s, k))
    && (k + 1 == |r.snaps| && !r.waiting ==> AllEntered(s, k) && (r.exited <==> Stops(s, k)))
  }

  ghost predicate Quiet(s: BState) {
    && (forall i :: 0 <= i < |s.ranks| ==> s.ranks[i].callbacks == 0 && s.ranks[i].buffered == [])
    && (forall i :: 0 <= i < |s.wire| ==> s.wire[i] == [])
  }

  /** No counter moved between its snapshot in round `k` and the middle of that round, and
      the counters balance: then nothing was in flight there, and nothing has moved since. */
  ghost predicate Frozen(s: BState, k: nat)
    requires k < |s.mids|
  {
    Calm(s, k) ==> CurrentCounts(s) == s.mids[k] && Quiet(s)
  }

  ghost predicate Calm(s: BState, k: nat)
    requires k < |s.mids|
  {
    && |s.mids[k]| == |s.ranks|
    && AllEntered(s, k)
    && (forall i :: 0 <= i < |s.ranks| ==> s.mids[k][i] == s.ranks[i].snaps[k])
    && Total(s, k).recv == Total(s, k).send
  }

  ghost predicate Conserved(s: BState) {
    |s.wire| == |s.ranks| && Sum(Sents(s)) == Sum(Recvs(s)) + Sum(Buffers(s)) + Sum(Wires(s))
  }

  ghost predicate BInv(s: BState) {
    && Conserved(s)
    && |s.ranks| > 0 && !AllEntered(s, |s.mids|)
    && (forall i :: 0 <= i < |s.ranks| ==> RankOk(s, i))
    && (forall k :: 0 <= k < |s.mids| ==> AllEntered(s, k) && Frozen(s, k))
  }

  // ----- conservation -----

  /** Replacing one rank changes each sum by the difference of that rank. */
  lemma {:induction false} SumsSet(s: BState, i: nat, r: Rank)
    requires i < |s.ranks|
    ensures var s' := Set(s, i, r); var o := s.ranks[i];
      && Sum(Sents(s')) == Sum(Sents(s)) - o.counts.send + r.counts.send
      && Sum(Recvs(s')) == Sum(Recvs(s)) - o.counts.recv + r.counts.recv
      && Sum(Buffers(s')) == Sum(Buffers(s)) - |o.buffered| + |r.buffered|
  {
    var s' := Set(s, i, r);
    SumUpdate(Sents(s), i, r.counts.send);
    SumUpdate(Recvs(s), i, r.counts.recv);
    SumUpdate(Buffers(s), i, |r.buffered|);
    assert Sents(s') == Sents(s)[i := r.counts.send];
    assert Recvs(s') == Recvs(s)[i := r.counts.recv];
    assert Buffers(s') == Buffers(s)[i := |r.buffered|];
  }

  lemma {:induction false} WireSet(s: BState, i: nat, q: seq<Message>)
    requires i < |s.wire|
    ensures Sum(Wires(s.(wire := s.wire[i := q]))) == Sum(Wires(s)) - |s.wire[i]| + |q|
  {
    SumUpdate(Wires(s), i, |q|);
    assert Wires(s.(wire := s.wire[i := q])) == Wires(s)[i := |q|];
  }

  /** What a local step guarantees about its rank. */
  ghost predicate Legal(s: BState, i: nat, e: Effect)
    requires i < |s.ranks|
  {
    var r, r' := s.ranks[i], e.rank;
    && e.w < |s.wire|
    && r'.snaps == r.snaps && r'.waiting == r.waiting && r'.exited == r.exited && LeqCounts(r.counts, r'.counts)
    && r'.counts.send - r.counts.send + |r.buffered| + |s.wire[e.w]|
       == r'.counts.recv - r.counts.recv + |r'.buffered| + |e.q|
    && (RankBase(s, r) ==> RankBase(s, r'))
  }

  lemma {:induction false} LocalIsLegal(s: BState, l: BLabel)
    requires Enabled(s, l) && IsLocal(l)
    ensures Legal(s, l.i, LocalStep(s, l))
  {
  }

  lemma {:induction false} ApplyConserves(s: BState, i: nat, e: Effect)
    requires Conserved(s) && i < |s.ranks| && Legal(s, i, e)
    ensures Conserved(Apply(s, i, e))
  {
    var s' := Apply(s, i, e);
    SumsSet(s, i, e.rank);
    WireSet(s, e.w, e.q);
    var set', wire' := Set(s, i, e.rank), s.(wire := s.wire[e.w := e.q]);
    assert Sents(s') == Sents(set') && Recvs(s') == Recvs(set');
    assert Buffers(s') == Buffers(set') && Wires(s') == Wires(wire');
  }

  lemma {:induction false} SameSums(s: BState, s': BState)
    requires Conserved(s) && |s'.ranks| == |s.ranks| && s'.wire == s.wire
    requires forall i :: 0 <= i < |s.ranks| ==>
      s'.ranks[i].counts == s.ranks[i].counts && s'.ranks[i].buffered == s.ranks[i].buffered
    ensures Conserved(s') && Sents(s') == Sents(s) && Recvs(s') == Recvs(s)
  {
    assert Sents(s') == Sents(s) && Recvs(s') == Recvs(s);
    assert Buffers(s') == Buffers(s) && Wires(s') == Wires(s);
  }

  lemma {:induction false} NextConserves(s: BState, l: BLabel)
    requires Conserved(s)
    ensures Conserved(Next(s, l))
  {
    if Enabled(s, l) {
      if IsLocal(l) {
        LocalIsLegal(s, l);
        ApplyConserves(s, l.i, LocalStep(s, l));
      } else {
        SameSums(s, Next(s, l));
      }
    }
  }

  // ----- the steps keep the invariant -----

  /** Every rank's contributions are those of `s`, possibly with more at the end. */
  ghost predicate Extends(s: BState, s': BState) {
    |s'.ranks| == |s.ranks| && forall i :: 0 <= i < |s.ranks| ==> s.ranks[i].snaps <= s'.ranks[i].snaps
  }

  lemma {:induction false} TotalStable(s: BState, s': BState, k: nat)
    requires Extends(s, s') && AllEntered(s, k)
    ensures AllEntered(s', k) && Total(s', k) == Total(s, k) && Stops(s', k) == Stops(s, k)
  {
    assert SnapRecvs(s', k) == SnapRecvs(s, k) && SnapSents(s', k) == SnapSents(s, k);
    if k > 0 {
      assert SnapRecvs(s', k - 1) == SnapRecvs(s, k - 1) && SnapSents(s', k - 1) == SnapSents(s, k - 1);
    }
  }

  lemma {:induction false} CalmStable(s: BState, s': BState, k: nat)
    requires Extends(s, s') && k < |s.mids| && s.mids <= s'.mids && AllEntered(s, k)
    ensures Calm(s', k) == Calm(s, k)
  {
    TotalStable(s, s', k);
  }

  /** Where nothing is in flight, only the reductions themselves can go on. */
  lemma {:induction false} CalmBlocks(s: BState, l: BLabel, k: nat)
    requires BInv(s) && k < |s.mids| && Calm(s, k)
    ensures Enabled(s, l) ==> l.EnterRound? || l.CompleteRound? || l.Agree?
  {
    assert Frozen(s, k) && AllEntered(s, k);
    if Enabled(s, l) {
      assert RankOk(s, l.i);
    }
  }

  lemma {:induction false} LocalBasics(s: BState, l: BLabel)
    requires BInv(s) && Enabled(s, l) && IsLocal(l)
    ensures var s' := Next(s, l);
      Extends(s, s') && s'.mids == s.mids && s'.verdict == s.verdict && !AllEntered(s', |s'.mids|)
  {
    var s' := Next(s, l);
    LocalIsLegal(s, l);
    var j :| 0 <= j < |s.ranks| && |s.ranks[j].snaps| <= |s.mids|;
    assert s'.ranks[j].snaps == s.ranks[j].snaps;
  }

  lemma {:induction false} LocalRank(s: BState, l: BLabel, j: nat)
    requires BInv(s) && Enabled(s, l) && IsLocal(l) && j < |s.ranks|
    ensures RankOk(Next(s, l), j)
  {
    assert RankOk(s, j);
    LocalBasics(s, l);
    LocalIsLegal(s, l);
    SameRounds(s, Next(s, l), j);
  }

  /** The rounds that are over stay as they are. */
  lemma {:induction false} SameRounds(s: BState, s': BState, j: nat)
    requires j < |s.ranks| && RankOk(s, j) && Extends(s, s') && s'.mids == s.mids && RankBase(s', s'.ranks[j])
    requires forall k :: 0 <= k < |s.mids| ==> AllEntered(s, k)
    requires var r, r' := s.ranks[j], s'.ranks[j];
      r'.snaps == r.snaps && r'.waiting == r.waiting && r'.exited == r.exited && LeqCounts(r.counts, r'.counts)
    ensures RankOk(s', j)
  {
    forall k | 0 <= k < |s.mids| ensures Between(s', j, k) && Passed(s', j, k) {
      assert Between(s, j, k) && Passed(s, j, k) && AllEntered(s, k);
      TotalStable(s, s', k);
    }
  }

  lemma {:induction false} LocalFrozen(s: BState, l: BLabel, k: nat)
    requires BInv(s) && Enabled(s, l) && IsLocal(l) && k < |s.mids|
    ensures AllEntered(Next(s, l), k) && Frozen(Next(s, l), k)
  {
    var s' := Next(s, l);
    LocalBasics(s, l);
    assert AllEntered(s, k) && Frozen(s, k);
    CalmStable(s, s', k);
    TotalStable(s, s', k);
    if Calm(s, k) {
      CalmBlocks(s, l, k);
    }
  }

  lemma {:induction false} LocalKeeps(s: BState, l: BLabel)
    requires BInv(s) && Enabled(s, l) && IsLocal(l)
    ensures BInv(Next(s, l))
  {
    var s' := Next(s, l);
    NextConserves(s, l);
    LocalBasics(s, l);
    forall j | 0 <= j < |s'.ranks| ensures RankOk(s', j) {
      LocalRank(s, l, j);
    }
    forall k | 0 <= k < |s'.mids| ensures AllEntered(s', k) && Frozen(s', k) {
      LocalFrozen(s, l, k);
    }
  }

  lemma {:induction false} CompleteBasics(s: BState, l: BLabel)
    requires BInv(s) && Enabled(s, l) && l.CompleteRound?
    ensures Extends(s, Next(s, l)) && !AllEntered(Next(s, l), |Next(s, l).mids|)
    ensures |s.ranks[l.i].snaps| == |s.mids| && CurrentCounts(Next(s, l)) == CurrentCounts(s)
  {
    var s' := Next(s, l);
    assert RankOk(s, l.i);
    var j :| 0 <= j < |s.ranks| && |s.ranks[j].snaps| <= |s.mids|;
    assert s'.ranks[j].snaps == s.ranks[j].snaps;
  }

  lemma {:induction false} CompleteRank(s: BState, l: BLabel, j: nat)
    requires BInv(s) && Enabled(s, l) && l.CompleteRound? && j < |s.ranks|
    ensures RankOk(Next(s, l), j)
  {
    var s' := Next(s, l);
    CompleteBasics(s, l);
    assert RankOk(s, j);
    hide Total;
    hide Stops;
    forall k | 0 <= k < |s.mids| ensures Between(s', j, k) && Passed(s', j, k) {
      assert Between(s, j, k) && Passed(s, j, k) && AllEntered(s, k);
      TotalStable(s, s', k);
    }
  }

  lemma {:induction false} CompleteFrozen(s: BState, l: BLabel, k: nat)
    requires BInv(s) && Enabled(s, l) && l.CompleteRound? && k < |s.mids|
    ensures AllEntered(Next(s, l), k) && Frozen(Next(s, l), k)
  {
    CompleteBasics(s, l);
    OldRoundFrozen(s, Next(s, l), k);
  }

  lemma {:induction false} CompleteKeeps(s: BState, l: BLabel)
    requires BInv(s) && Enabled(s, l) && l.CompleteRound?
    ensures BInv(Next(s, l))
  {
    var s' := Next(s, l);
    NextConserves(s, l);
    CompleteBasics(s, l);
    forall j | 0 <= j < |s'.ranks| ensures RankOk(s', j) {
      CompleteRank(s, l, j);
    }
    forall k | 0 <= k < |s'.mids| ensures AllEntered(s', k) && Frozen(s', k) {
      CompleteFrozen(s, l, k);
    }
  }

  /** At the middle of a round, unmoved and balanced counters mean that nothing is in flight. */
  lemma {:induction false} CalmIsQuiet(s: BState, m: nat)
    requires Conserved(s) && AllEntered(s, m) && Total(s, m).recv == Total(s, m).send
    requires forall i :: 0 <= i < |s.ranks| ==> s.ranks[i].counts == s.ranks[i].snaps[m] && s.ranks[i].callbacks == 0
    ensures Quiet(s)
  {
    assert SnapRecvs(s, m) == Recvs(s) && SnapSents(s, m) == Sents(s);
    forall i | 0 <= i < |s.ranks| ensures s.ranks[i].buffered == [] && s.wire[i] == [] {
      SumZero(Buffers(s), i);
      SumZero(Wires(s), i);
      assert Buffers(s)[i] == 0 && Wires(s)[i] == 0;
    }
  }

  /** Entering a round is only possible once the previous one is complete everywhere. */
  lemma {:induction false} EnterBasics(s: BState, l: BLabel)
    requires BInv(s) && Enabled(s, l) && l.EnterRound?
    ensures var s' := Next(s, l);
      && Extends(s, s') && s.mids <= s'.mids && |s'.mids| <= |s.mids| + 1
      && |s.ranks[l.i].snaps| == |s.mids| && s'.ranks[l.i].snaps == s.ranks[l.i].snaps + [s.ranks[l.i].counts]
      && CurrentCounts(s') == CurrentCounts(s)
      && !AllEntered(s', |s'.mids|)
      && (|s'.mids| > |s.mids| ==> AllEntered(s', |s.mids|) && s'.mids[|s.mids|] == CurrentCounts(s))
  {
    var s' := Next(s, l);
    assert RankOk(s, l.i);
    assert CurrentCounts(s') == CurrentCounts(s);
    assert |s'.ranks[l.i].snaps| <= |s.mids| + 1;
  }

  lemma {:induction false} EnterRanks(s: BState, l: BLabel, j: nat)
    requires BInv(s) && Enabled(s, l) && l.EnterRound? && j < |s.ranks|
    ensures RankOk(Next(s, l), j)
  {
    var s' := Next(s, l);
    var m := |s.mids|;
    EnterBasics(s, l);
    assert RankOk(s, j) && RankOk(s, l.i);
    forall k | 0 <= k < |s'.mids| ensures Between(s', j, k) {
      if k < m {
        assert Between(s, j, k);
      }
    }
    forall k | 0 <= k < |s'.mids| ensures Passed(s', j, k) {
      if k < m {
        assert Passed(s, j, k) && AllEntered(s, k);
        TotalStable(s, s', k);
      }
    }
  }

  /** The round whose last rank has just entered. */
  lemma {:induction false} NewRoundFrozen(s: BState, l: BLabel)
    requires BInv(s) && Enabled(s, l) && l.EnterRound? && |Next(s, l).mids| > |s.mids|
    ensures AllEntered(Next(s, l), |s.mids|) && Frozen(Next(s, l), |s.mids|)
  {
    var s', k := Next(s, l), |s.mids|;
    EnterBasics(s, l);
    if Calm(s', k) {
      forall i | 0 <= i < |s'.ranks|
        ensures s'.ranks[i].counts == s'.ranks[i].snaps[k] && s'.ranks[i].callbacks == 0
      {
        assert RankOk(s, i);
        assert s'.mids[k][i] == s'.ranks[i].snaps[k];
      }
      NextConserves(s, l);
      CalmIsQuiet(s', k);
    }
  }

  lemma {:induction false} OldRoundFrozen(s: BState, s': BState, k: nat)
    requires BInv(s) && Extends(s, s') && s.mids <= s'.mids && k < |s.mids|
    requires CurrentCounts(s') == CurrentCounts(s) && (Quiet(s) ==> Quiet(s'))
    ensures AllEntered(s', k) && Frozen(s', k)
  {
    assert AllEntered(s, k) && Frozen(s, k);
    CalmStable(s, s', k);
    TotalStable(s, s', k);
  }

  lemma {:induction false} EnterFrozen(s: BState, l: BLabel, k: nat)
    requires BInv(s) && Enabled(s, l) && l.EnterRound? && k < |Next(s, l).mids|
    ensures AllEntered(Next(s, l), k) && Frozen(Next(s, l), k)
  {
    EnterBasics(s, l);
    if k < |s.mids| {
      OldRoundFrozen(s, Next(s, l), k);
    } else {
      NewRoundFrozen(s, l);
    }
  }

  lemma {:induction false} EnterKeeps(s: BState, l: BLabel)
    requires BInv(s) && Enabled(s, l) && l.EnterRound?
    ensures BInv(Next(s, l))
  {
    var s' := Next(s, l);
    NextConserves(s, l);
    EnterBasics(s, l);
    forall j | 0 <= j < |s'.ranks| ensures RankOk(s', j) {
      EnterRanks(s, l, j);
    }
    forall k | 0 <= k < |s'.mids| ensures AllEntered(s', k) && Frozen(s', k) {
      EnterFrozen(s, l, k);
    }
  }

  /** The last reduction: nothing of this barrier is left but the counters. */
  lemma {:induction false} AgreeKeeps(s: BState)
    requires BInv(s) && forall j :: 0 <= j < |s.ranks| ==> s.ranks[j].exited
    ensures BInv(Agreement(s))
  {
    var s' := Agreement(s);
    assert Sents(s') == Sents(s) && Recvs(s') == Recvs(s) && Buffers(s') == Buffers(s) && Wires(s') == Wires(s);
    assert s'.ranks[0].snaps == [];
    forall j | 0 <= j < |s'.ranks| ensures RankOk(s', j) {
      assert RankOk(s, j);
    }
  }

  lemma {:induction false} NextKeeps(s: BState, l: BLabel)
    requires BInv(s)
    ensures BInv(Next(s, l))
  {
    if Enabled(s, l) {
      if IsLocal(l) {
        LocalKeeps(s, l);
      } else if l.EnterRound? {
        EnterKeeps(s, l);
      } else if l.CompleteRound? {
        CompleteKeeps(s, l);
      } else {
        AgreeKeeps(s);
      }
    }
  }

  lemma {:induction false} SumOfZeros(s: seq<nat>)
    requires forall i :: 0 <= i < |s| ==> s[i] == 0
    ensures Sum(s) == 0
  {
    if s != [] {
      SumOfZeros(s[1..]);
    }
  }

  // ----- the theorems -----

  /** Two consecutive equal sums pin down every counter in between. */
  lemma {:induction false} EqualSumsAreCalm(s: BState, k: nat)
    requires BInv(s) && k + 1 < |s.mids| && AllEntered(s, k + 1) && Stops(s, k + 1)
    ensures Calm(s, k)
  {
    assert AllEntered(s, k) && AllEntered(s, k + 1);
    forall i | 0 <= i < |s.ranks|
      ensures |s.mids[k]| == |s.ranks|
      ensures LeqCounts(s.ranks[i].snaps[k], s.mids[k][i]) && LeqCounts(s.mids[k][i], s.ranks[i].snaps[k + 1])
    {
      assert RankOk(s, i) && Between(s, i, k);
    }
    SumMonotone(SnapRecvs(s, k), SnapRecvs(s, k + 1));
    SumMonotone(SnapSents(s, k), SnapSents(s, k + 1));
    forall i | 0 <= i < |s.ranks| ensures s.mids[k][i] == s.ranks[i].snaps[k] {
      assert SnapRecvs(s, k)[i] == SnapRecvs(s, k + 1)[i] && SnapSents(s, k)[i] == SnapSents(s, k + 1)[i];
    }
    assert |s.mids[k]| == |s.ranks| by {
      assert RankOk(s, 0) && Between(s, 0, k);
    }
  }

  /** A rank that has left the loop: no message is unexecuted anywhere, no callback is pending,
      and all ranks have left or are about to leave after the very same round. */
  lemma {:induction false} ExitIsQuiet(s: BState, i: nat)
    requires BInv(s) && i < |s.ranks| && s.ranks[i].exited
    ensures Quiet(s) && Sum(Sents(s)) == Sum(Recvs(s))
    ensures forall j :: 0 <= j < |s.ranks| ==> SameRound(s, i, j)
  {
    assert RankOk(s, i);
    var last := |s.ranks[i].snaps| - 1;
    assert Passed(s, i, last) && Between(s, i, last);
    assert Stops(s, last);
    assert last > 0;
    EqualSumsAreCalm(s, last - 1);
    assert Frozen(s, last - 1);
    SumOfZeros(Buffers(s));
    SumOfZeros(Wires(s));
    forall j | 0 <= j < |s.ranks| ensures SameRound(s, i, j) {
      assert RankOk(s, j) && Passed(s, j, last);
    }
  }

  ghost predicate SameRound(s: BState, i: nat, j: nat)
    requires i < |s.ranks| && j < |s.ranks|
  {
    |s.ranks[j].snaps| == |s.ranks[i].snaps| && (s.ranks[j].exited || s.ranks[j].waiting)
  }

  // ----- from one barrier to the next -----

  /** Ranks return from a barrier one by one, but all of them left its loop before, and every
      message that is still under way was sent after that. */
  ghost predicate EraOk(s: BState) {
    && (forall i :: 0 <= i < |s.ranks| ==> RankEra(s, i))
    && (forall i :: 0 <= i < |s.wire| ==> Sent(s.wire[i], s.agreed))
  }

  ghost predicate RankEra(s: BState, i: nat)
    requires i < |s.ranks|
  {
    var r := s.ranks[i];
    r.era + (if r.returning then 1 else 0) == s.agreed && Sent(r.buffered, s.agreed)
  }

  ghost predicate Sent(q: seq<Message>, era: nat) {
    forall k :: 0 <= k < |q| ==> q[k] == era
  }

  lemma {:induction false} LocalEra(s: BState, l: BLabel)
    requires BInv(s) && EraOk(s) && Enabled(s, l) && IsLocal(l)
    ensures var e := LocalStep(s, l);
      && e.rank.era + (if e.rank.returning then 1 else 0) == s.agreed
      && Sent(e.rank.buffered, s.agreed) && Sent(e.q, s.agreed)
  {
    assert RankEra(s, l.i) && RankOk(s, l.i) && Sent(s.wire[l.i], s.agreed);
    if l.Flush? {
      assert Sent(s.wire[l.to], s.agreed);
    }
  }

  lemma {:induction false} ApplyEra(s: BState, i: nat, e: Effect)
    requires EraOk(s) && i < |s.ranks| && e.w < |s.wire|
    requires e.rank.era + (if e.rank.returning then 1 else 0) == s.agreed
    requires Sent(e.rank.buffered, s.agreed) && Sent(e.q, s.agreed)
    ensures EraOk(Apply(s, i, e))
  {
    forall j | 0 <= j < |s.ranks| ensures RankEra(Apply(s, i, e), j) {
      assert RankEra(s, j);
    }
  }

  lemma {:induction false} RoundEra(s: BState, l: BLabel)
    requires EraOk(s) && Enabled(s, l) && (l.EnterRound? || l.CompleteRound?)
    ensures EraOk(Next(s, l))
  {
    forall j | 0 <= j < |s.ranks| ensures RankEra(Next(s, l), j) {
      assert RankEra(s, j);
    }
  }

  lemma {:induction false} AgreeEra(s: BState)
    requires BInv(s) && EraOk(s) && forall j :: 0 <= j < |s.ranks| ==> s.ranks[j].exited
    ensures EraOk(Agreement(s))
  {
    ExitIsQuiet(s, 0);
    forall j | 0 <= j < |s.ranks| ensures RankEra(Agreement(s), j) {
      assert RankEra(s, j) && RankOk(s, j);
    }
  }

  lemma {:induction false} NextEra(s: BState, l: BLabel)
    requires BInv(s) && EraOk(s)
    ensures EraOk(Next(s, l))
  {
    if Enabled(s, l) {
      if IsLocal(l) {
        LocalEra(s, l);
        LocalIsLegal(s, l);
        ApplyEra(s, l.i, LocalStep(s, l));
      } else if l.Agree? {
        AgreeEra(s);
      } else {
        RoundEra(s, l);
      }
    }
  }

  lemma {:induction false} RunStep(n: nat, labels: seq<BLabel>, l: BLabel)
    ensures Run(n, labels + [l]) == Next(Run(n, labels), l)
  {
    assert (labels + [l])[..|labels + [l]| - 1] == labels;
  }

  lemma {:induction false} RunInv(n: nat, labels: seq<BLabel>)
    requires n > 0
    ensures BInv(Run(n, labels)) && EraOk(Run(n, labels))
  {
    if labels == [] {
      var s := Fresh(n);
      SumOfZeros(Sents(s));
      SumOfZeros(Recvs(s));
      SumOfZeros(Buffers(s));
      SumOfZeros(Wires(s));
      assert |s.ranks[0].snaps| == 0;
    } else {
      RunInv(n, labels[..|labels| - 1]);
      NextEra(Run(n, labels[..|labels| - 1]), labels[|labels| - 1]);
      NextKeeps(Run(n, labels[..|labels| - 1]), labels[|labels| - 1]);
    }
  }

  /** In every run of any number of barriers: when any rank has left the counting loop, no
      message is unexecuted anywhere, no pre-barrier callback is pending, and every rank has left
      or is about to leave after the very same reduction. */
  lemma {:induction false} ExitMeansQuiescent(n: nat, labels: seq<BLabel>, i: nat)
    requires n > 0 && i < |Run(n, labels).ranks| && Run(n, labels).ranks[i].exited
    ensures var s := Run(n, labels);
      && Quiet(s) && Sum(Sents(s)) == Sum(Recvs(s))
      && forall j :: 0 <= j < |s.ranks| ==> SameRound(s, i, j)
  {
    RunInv(n, labels);
    ExitIsQuiet(Run(n, labels), i);
  }

  /** A message is executed between the same two barriers in which it was sent: its sender and
      the rank that runs its handler have returned from equally many barriers. */
  lemma {:induction false} ExecutedInItsEra(n: nat, labels: seq<BLabel>, l: BLabel)
    requires n > 0 && (l.Execute? || l.Forward?) && Enabled(Run(n, labels), l)
    ensures Run(n, labels).wire[l.i][l.k] == Run(n, labels).ranks[l.i].era
  {
    RunInv(n, labels);
    assert RankEra(Run(n, labels), l.i) && Sent(Run(n, labels).wire[l.i], Run(n, labels).agreed);
  }

  /** When a rank has returned from a barrier, every other rank has left its counting loop: it
      has returned as well, or is just returning.  And whatever is under way anywhere was sent
      by a rank that had returned from that barrier. */
  lemma {:induction false} ReturnMeansAllArrived(n: nat, labels: seq<BLabel>, i: nat, j: nat)
    requires n > 0 && i < |Run(n, labels).ranks| && j < |Run(n, labels).ranks|
    ensures var s := Run(n, labels); var era := s.ranks[i].era;
      && (s.ranks[j].era < era ==> s.ranks[j].returning && s.ranks[j].era + 1 == era)
      && (forall k :: 0 <= k < |s.ranks[j].buffered| ==> s.ranks[j].buffered[k] >= era)
      && |s.wire| == |s.ranks| && (forall k :: 0 <= k < |s.wire[j]| ==> s.wire[j][k] >= era)
  {
    RunInv(n, labels);
    var s := Run(n, labels);
    assert RankEra(s, i) && RankEra(s, j) && Sent(s.wire[j], s.agreed);
  }

  /** The assertion of `async_barrier` holds: it returns from a barrier that was not full. */
  lemma {:induction false} AsyncBarrierIsNotFull(n: nat, labels: seq<BLabel>, i: nat)
    requires n > 0 && i < |Run(n, labels).ranks|
    requires Run(n, labels).ranks[i].returning && !Run(n, labels).ranks[i].full
    ensures !Run(n, labels).verdict
  {
    RunInv(n, labels);
    assert RankOk(Run(n, labels), i);
  }

  // ----- and the barrier ends once there is nothing left to do -----

  /** From round `m` on every contribution equals the present counters. */
  ghost predicate Settled(s: BState, m: nat) {
    && Quiet(s)
    && Sum(Sents(s)) == Sum(Recvs(s))
    && forall i :: 0 <= i < |s.ranks| ==>
         && s.ranks[i].inBarrier && !s.ranks[i].returning
         && forall k :: m <= k < |s.ranks[i].snaps| ==> s.ranks[i].snaps[k] == s.ranks[i].counts
  }

  lemma {:induction false} OnlyRounds(s: BState, l: BLabel, m: nat)
    requires Settled(s, m) && Enabled(s, l) && Next(s, l).agreed == s.agreed
    ensures l.EnterRound? || l.CompleteRound?
  {
  }

  /** A rank that takes part in one more round, or completes one. */
  ghost predicate OneRound(r: Rank, r': Rank) {
    && r'.counts == r.counts && r'.buffered == r.buffered && r'.callbacks == r.callbacks
    && r'.inBarrier == r.inBarrier && r'.returning == r.returning
    && (r'.snaps == r.snaps || r'.snaps == r.snaps + [r.counts])
  }

  lemma {:induction false} SettledKept(s: BState, s': BState, m: nat)
    requires Conserved(s) && Settled(s, m) && |s'.ranks| == |s.ranks| && s'.wire == s.wire
    requires forall i :: 0 <= i < |s.ranks| ==> OneRound(s.ranks[i], s'.ranks[i])
    ensures Settled(s', m)
  {
    SameSums(s, s');
  }

  lemma {:induction false} NextSettled(s: BState, l: BLabel, m: nat)
    requires Conserved(s) && Settled(s, m) && Next(s, l).agreed == s.agreed
    ensures Settled(Next(s, l), m) && |Next(s, l).ranks| == |s.ranks|
  {
    if Enabled(s, l) {
      OnlyRounds(s, l, m);
      SettledKept(s, Next(s, l), m);
    }
  }

  lemma {:induction false} SettledStops(s: BState, m: nat)
    requires BInv(s) && Settled(s, m) && AllEntered(s, m + 1)
    ensures Stops(s, m + 1)
  {
    assert AllEntered(s, m);
    assert SnapRecvs(s, m) == Recvs(s) && SnapSents(s, m) == Sents(s);
    assert SnapRecvs(s, m + 1) == Recvs(s) && SnapSents(s, m + 1) == Sents(s);
  }

  /** If all ranks are in a barrier and nothing is in flight, then whatever happens next in that
      barrier, no rank takes part in more than three further reductions. */
  lemma {:induction false} QuietBarrierEnds(n: nat, labels: seq<BLabel>, more: seq<BLabel>, i: nat)
    requires n > 0 && Quiet(Run(n, labels)) && i < |Run(n, labels).ranks|
    requires forall j :: 0 <= j < |Run(n, labels).ranks| ==>
      Run(n, labels).ranks[j].inBarrier && !Run(n, labels).ranks[j].returning
    requires Run(n, labels + more).agreed == Run(n, labels).agreed
    ensures var s, s' := Run(n, labels), Run(n, labels + more);
      && |s'.ranks| == |s.ranks|
      && |s'.ranks[i].snaps| <= |s.mids| + 3
      && (|s'.ranks[i].snaps| == |s.mids| + 3 ==> s'.ranks[i].waiting || s'.ranks[i].exited)
  {
    var s := Run(n, labels);
    RunInv(n, labels);
    SumOfZeros(Buffers(s));
    SumOfZeros(Wires(s));
    var m := |s.mids| + 1;
    assert Settled(s, m) by {
      forall j | 0 <= j < |s.ranks| ensures |s.ranks[j].snaps| <= m {
        assert RankOk(s, j);
      }
    }
    SettledRun(n, labels, more, m);
    var s' := Run(n, labels + more);
    RunInv(n, labels + more);
    assert RankOk(s', i);
    if |s'.ranks[i].snaps| > m + 1 {
      assert Passed(s', i, m + 1);
      if AllEntered(s', m + 1) {
        SettledStops(s', m);
      }
    }
  }

  lemma {:induction false} AgreedGrows(n: nat, labels: seq<BLabel>, more: seq<BLabel>)
    ensures Run(n, labels).agreed <= Run(n, labels + more).agreed
  {
    if more == [] {
      assert labels + more == labels;
    } else {
      var before, l := more[..|more| - 1], more[|more| - 1];
      assert labels + more == labels + before + [l];
      RunStep(n, labels + before, l);
      AgreedGrows(n, labels, before);
    }
  }

  lemma {:induction false} SettledStep(n: nat, labels: seq<BLabel>, l: BLabel, m: nat)
    requires n > 0 && Settled(Run(n, labels), m) && Run(n, labels + [l]).agreed == Run(n, labels).agreed
    ensures Settled(Run(n, labels + [l]), m) && |Run(n, labels + [l]).ranks| == |Run(n, labels).ranks|
  {
    RunStep(n, labels, l);
    RunInv(n, labels);
    NextSettled(Run(n, labels), l, m);
  }

  lemma {:induction false} SettledRun(n: nat, labels: seq<BLabel>, more: seq<BLabel>, m: nat)
    requires n > 0 && Settled(Run(n, labels), m) && Run(n, labels + more).agreed == Run(n, labels).agreed
    ensures Settled(Run(n, labels + more), m) && |Run(n, labels + more).ranks| == |Run(n, labels).ranks|
  {
    if more == [] {
      assert labels + more == labels;
    } else {
      var before, l := more[..|more| - 1], more[|more| - 1];
      assert labels + more == labels + before + [l];
      AgreedGrows(n, labels, before);
      AgreedGrows(n, labels + before, [l]);
      SettledRun(n, labels, before, m);
      SettledStep(n, labels + before, l, m);
    }
  }

  // ----- the counting loop -----

  /** The stopping test on a stream of global sums. */
  predicate StopsOn(totals: nat -> Counts, k: nat) {
    k > 0 && totals(k).recv == totals(k).send && totals(k - 1) == totals(k)
  }

  /** The loop of `priv_barrier`: the number of reductions a rank takes part in depends on the
      global sums only, and is the first that stops. */
  method CountingLoop(totals: nat -> Counts, ghost bound: nat) returns (rounds: nat)
    requires StopsOn(totals, bound)
    ensures rounds > 0 && StopsOn(totals, rounds - 1)
    ensures forall k: nat :: k + 1 < rounds ==> !StopsOn(totals, k)
  {
    var previous, current := Counts(1, 2), Counts(3, 4);
    rounds := 0;
    while !(current.recv == current.send && previous == current)
      invariant rounds <= bound + 1
      invariant rounds == 0 ==> previous == Counts(1, 2) && current == Counts(3, 4)
      invariant rounds == 1 ==> previous == Counts(3, 4) && current == totals(0)
      invariant rounds > 1 ==> previous == totals(rounds - 2) && current == totals(rounds - 1)
      invariant forall k: nat :: k + 1 < rounds ==> !StopsOn(totals, k)
      decreases bound + 1 - rounds
    {
      assert rounds > 0 ==> !StopsOn(totals, rounds - 1);
      previous := current;
      current := totals(rounds);
      rounds := rounds + 1;
    }
  }

  /** On the sums of a run the stream test is the test of every rank. */
  lemma {:induction false} SameTest(s: BState, k: nat, totals: nat -> Counts)
    requires AllEntered(s, k)
    requires forall j: nat :: j <= k ==> totals(j) == Total(s, j)
    ensures Stops(s, k) == StopsOn(totals, k)
  {
    assert totals(k) == Total(s, k);
    if k > 0 {
      assert totals(k - 1) == Total(s, k - 1);
    }
  }
}
