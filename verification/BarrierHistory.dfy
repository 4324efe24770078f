/** What a run of barriers did, seen from its labels: what a return from a barrier tells the
    ranks, and what the counters have counted. */
module BarrierHistory {
  import opened Barrier

  // ----- full barriers are reported as full, and no others -----

  ghost predicate AllExited(s: BState) {
    forall j :: 0 <= j < |s.ranks| ==> s.ranks[j].exited
  }

  /** Whether rank `i` called `barrier` and not `async_barrier` when it last entered a barrier. */
  predicate EnteredFull(n: nat, labels: seq<BLabel>, i: nat) {
    if labels == [] then false
    else
      var before, l := labels[..|labels| - 1], labels[|labels| - 1];
      if l.EnterBarrier? && l.i == i && Enabled(Run(n, before), l) then l.full else EnteredFull(n, before, i)
  }

  lemma {:induction false} NextRanks(s: BState, l: BLabel)
    ensures |Next(s, l).ranks| == |s.ranks|
  {
  }

  lemma {:induction false} RunRanks(n: nat, labels: seq<BLabel>)
    ensures |Run(n, labels).ranks| == n
  {
    if labels != [] {
      RunRanks(n, labels[..|labels| - 1]);
      NextRanks(Run(n, labels[..|labels| - 1]), labels[|labels| - 1]);
    }
  }

  lemma {:induction false} NextFull(s: BState, l: BLabel, i: nat)
    requires i < |s.ranks|
    ensures |Next(s, l).ranks| == |s.ranks|
    ensures Next(s, l).ranks[i].full ==
            if l.EnterBarrier? && l.i == i && Enabled(s, l) then l.full else s.ranks[i].full
  {
  }

  /** A rank remembers how it entered. */
  lemma {:induction false} FullIsHistory(n: nat, labels: seq<BLabel>, i: nat)
    requires i < n
    ensures |Run(n, labels).ranks| == n && Run(n, labels).ranks[i].full == EnteredFull(n, labels, i)
  {
    RunRanks(n, labels);
    if labels != [] {
      FullIsHistory(n, labels[..|labels| - 1], i);
      NextFull(Run(n, labels[..|labels| - 1]), labels[|labels| - 1], i);
    }
  }

  /** The outcome that rank `j` is about to see is the same. */
  ghost predicate SameOutcome(s: BState, s': BState, j: nat)
    requires j < |s.ranks| && j < |s'.ranks|
  {
    && s'.verdict == s.verdict && s'.agreed == s.agreed
    && s'.ranks[j].full == s.ranks[j].full && s'.ranks[j].era == s.ranks[j].era
  }

  /** All ranks agree on whether they all are in a full barrier. */
  ghost predicate Agreeing(s: BState, s': BState, j: nat)
    requires j < |s.ranks| && j < |s'.ranks|
  {
    && AllExited(s) && s'.agreed == s.agreed + 1
    && s'.verdict == (forall i :: 0 <= i < |s.ranks| ==> s.ranks[i].full)
    && s'.ranks[j].full == s.ranks[j].full && s'.ranks[j].era == s.ranks[j].era
  }

  lemma {:induction false} LocalOutcome(s: BState, l: BLabel, j: nat)
    requires j < |s.ranks| && Enabled(s, l) && IsLocal(l) && (s.ranks[j].returning ==> s.ranks[j].inBarrier)
    requires j < |Next(s, l).ranks| && Next(s, l).ranks[j].returning
    ensures s.ranks[j].returning && SameOutcome(s, Next(s, l), j)
  {
  }

  lemma {:induction false} RoundOutcome(s: BState, l: BLabel, j: nat)
    requires j < |s.ranks| && (l.EnterRound? || l.CompleteRound?)
    requires j < |Next(s, l).ranks| && Next(s, l).ranks[j].returning
    ensures s.ranks[j].returning && SameOutcome(s, Next(s, l), j)
  {
  }

  lemma {:induction false} AgreeOutcome(s: BState, j: nat)
    requires j < |s.ranks| && AllExited(s)
    ensures j < |Agreement(s).ranks| && Agreeing(s, Agreement(s), j)
  {
  }

  /** While a rank is returning nothing changes the outcome it is about to see. */
  lemma {:induction false} StillReturning(s: BState, l: BLabel, j: nat)
    requires BInv(s) && j < |s.ranks| && j < |Next(s, l).ranks| && Next(s, l).ranks[j].returning
    ensures if s.ranks[j].returning then SameOutcome(s, Next(s, l), j)
            else l.Agree? && Agreeing(s, Next(s, l), j)
  {
    assert RankOk(s, j);
    hide BInv;
    if Enabled(s, l) {
      if l.Agree? {
        assert !s.ranks[j].returning;
        AgreeOutcome(s, j);
      } else if IsLocal(l) {
        hide Next;
        LocalOutcome(s, l, j);
      } else {
        hide Next;
        RoundOutcome(s, l, j);
      }
    }
  }

  /** The agreement that rank `j` is returning from was reached after the first `p` labels. */
  ghost predicate AgreedAt(n: nat, labels: seq<BLabel>, j: nat, p: nat)
    requires j < n && p < |labels|
  {
    var s0, s := Run(n, labels[..p]), Run(n, labels);
    && |s0.ranks| == n && |s.ranks| == n
    && labels[p].Agree? && AllExited(s0)
    && s.agreed == s0.agreed + 1 && s.ranks[j].era == s0.ranks[j].era
    && s.verdict == (forall i: nat :: i < n ==> EnteredFull(n, labels[..p], i))
    && s.ranks[j].full == EnteredFull(n, labels[..p], j)
  }

  lemma {:induction false} AgreedLater(n: nat, before: seq<BLabel>, l: BLabel, j: nat, p: nat)
    requires j < n && p < |before| && AgreedAt(n, before, j, p)
    requires |Run(n, before).ranks| == |Run(n, before + [l]).ranks| == n
    requires SameOutcome(Run(n, before), Run(n, before + [l]), j)
    ensures AgreedAt(n, before + [l], j, p)
  {
    assert (before + [l])[..p] == before[..p];
    hide Run;
    hide EnteredFull;
  }

  lemma {:induction false} AgreedNow(n: nat, before: seq<BLabel>, l: BLabel, j: nat)
    requires j < n && |Run(n, before).ranks| == |Run(n, before + [l]).ranks| == n
    requires l.Agree? && Agreeing(Run(n, before), Run(n, before + [l]), j)
    ensures AgreedAt(n, before + [l], j, |before|)
  {
    assert (before + [l])[..|before|] == before;
    forall i: nat | i < n ensures Run(n, before).ranks[i].full == EnteredFull(n, before, i) {
      FullIsHistory(n, before, i);
    }
    hide Run;
    hide EnteredFull;
  }

  lemma {:induction false} SomeAgreement(n: nat, labels: seq<BLabel>, j: nat) returns (p: nat)
    requires n > 0 && j < |Run(n, labels).ranks| && Run(n, labels).ranks[j].returning
    ensures j < n && p < |labels| && AgreedAt(n, labels, j, p)
  {
    RunRanks(n, labels);
    var before, l := labels[..|labels| - 1], labels[|labels| - 1];
    var s := Run(n, before);
    assert labels == before + [l];
    RunInv(n, before);
    RunRanks(n, before);
    StillReturning(s, l, j);
    if s.ranks[j].returning {
      p := SomeAgreement(n, before, j);
      AgreedLater(n, before, l, j, p);
    } else {
      p := |before|;
      AgreedNow(n, before, l, j);
    }
  }

  /** In every run, a rank that returns from a barrier is returning from a last reduction that
      took place when all ranks had left the loop, and that it has not returned from before.  It
      is outside the barrier then, unless it called `barrier` and some rank did not: `barrier`
      ends exactly when all ranks were in a full barrier, and `async_barrier` always does. */
  lemma {:induction false} ReturnTellsTruth(n: nat, labels: seq<BLabel>, j: nat)
    requires n > 0 && j < |Run(n, labels).ranks| && Run(n, labels).ranks[j].returning
    ensures j < |Next(Run(n, labels), Return(j)).ranks| && j < n
    ensures exists p: nat :: (
      && p < |labels| && labels[p].Agree? && AllExited(Run(n, labels[..p]))
      && Run(n, labels).agreed == Run(n, labels[..p]).agreed + 1
      && (var r := Next(Run(n, labels), Return(j)).ranks[j];
          && !r.returning && r.era == Run(n, labels).ranks[j].era + 1
          && (r.inBarrier <==> EnteredFull(n, labels[..p], j) && exists i: nat ::
                i < n && !EnteredFull(n, labels[..p], i))))
  {
    var p := SomeAgreement(n, labels, j);
    RunInv(n, labels);
    var s := Run(n, labels);
    assert Enabled(s, Return(j));
    hide EnteredFull;
    hide Run;
  }

  /** When all ranks have left the loop of a full barrier, each of them is outside of it after
      its return, whatever happens in between; and when one of them is in an `async_barrier`,
      the ranks that called `barrier` stay in it. */
  lemma {:induction false} FullBarrierEnds(n: nat, labels: seq<BLabel>, more: seq<BLabel>, j: nat)
    requires n > 0 && j < |Run(n, labels).ranks| && AllExited(Run(n, labels))
    requires var s := Run(n, labels + [Agree(0)] + more);
      j < |s.ranks| && s.ranks[j].returning && s.agreed == Run(n, labels).agreed + 1
    ensures var s0, s := Run(n, labels), Next(Run(n, labels + [Agree(0)] + more), Return(j));
      && j < |s.ranks| && !s.ranks[j].returning
      && (s.ranks[j].inBarrier <==> s0.ranks[j].full && exists i :: 0 <= i < |s0.ranks| && !s0.ranks[i].full)
  {
    Outcome(n, labels, more, j);
    RunInv(n, labels + [Agree(0)] + more);
  }

  lemma {:induction false} AgreedAtLeast(n: nat, labels: seq<BLabel>, more: seq<BLabel>)
    requires n > 0 && AllExited(Run(n, labels))
    ensures Run(n, labels + [Agree(0)] + more).agreed > Run(n, labels).agreed
  {
    RunInv(n, labels);
    RunRanks(n, labels);
    RunStep(n, labels, Agree(0));
    AgreedGrows(n, labels + [Agree(0)], more);
  }

  /** In `s` rank `j` is about to see whether all ranks were in a full barrier in `s0`. */
  ghost predicate Reported(s0: BState, s: BState, j: nat)
    requires j < |s0.ranks| && j < |s.ranks|
  {
    && s.verdict == (forall i :: 0 <= i < |s0.ranks| ==> s0.ranks[i].full)
    && s.ranks[j].full == s0.ranks[j].full
  }

  lemma {:induction false} ReportedStep(s0: BState, s: BState, s': BState, j: nat)
    requires j < |s0.ranks| && j < |s.ranks| && j < |s'.ranks|
    requires if s == s0 then Agreeing(s, s', j) else Reported(s0, s, j) && SameOutcome(s, s', j)
    ensures Reported(s0, s', j)
  {
  }

  lemma {:induction false} Outcome(n: nat, labels: seq<BLabel>, more: seq<BLabel>, j: nat)
    requires n > 0 && j < |Run(n, labels).ranks| && AllExited(Run(n, labels))
    requires var s := Run(n, labels + [Agree(0)] + more);
      j < |s.ranks| && s.ranks[j].returning && s.agreed == Run(n, labels).agreed + 1
    ensures Reported(Run(n, labels), Run(n, labels + [Agree(0)] + more), j)
  {
    hide Next;
    hide BInv;
    hide EraOk;
    hide Reported;
    hide Run;
    RunInv(n, labels);
    RunRanks(n, labels);
    var agreed, s0 := labels + [Agree(0)], Run(n, labels);
    if more == [] {
      assert agreed + more == agreed;
      RunStep(n, labels, Agree(0));
      ExitedOutcome(s0, j);
      ReportedStep(s0, s0, Next(s0, Agree(0)), j);
    } else {
      var before, l := more[..|more| - 1], more[|more| - 1];
      var s := Run(n, agreed + before);
      assert agreed + more == agreed + before + [l];
      RunStep(n, agreed + before, l);
      RunInv(n, agreed + before);
      RunRanks(n, agreed + before);
      AgreedAtLeast(n, labels, before);
      StillReturning(s, l, j);
      Outcome(n, labels, before, j);
      ReportedStep(s0, s, Next(s, l), j);
    }
  }

  lemma {:induction false} ExitedOutcome(s: BState, j: nat)
    requires BInv(s) && j < |s.ranks| && AllExited(s)
    ensures j < |Next(s, Agree(0)).ranks| && Agreeing(s, Next(s, Agree(0)), j)
  {
    AgreeOutcome(s, j);
  }

  // ----- the counters count what happened -----

  datatype History = History(handled: nat, sent: nat, registered: nat, ran: nat)

  /** What rank `i` did in a run. */
  function HistoryOf(n: nat, labels: seq<BLabel>, i: nat): History {
    if labels == [] then History(0, 0, 0, 0)
    else
      var before, l := labels[..|labels| - 1], labels[|labels| - 1];
      var h := HistoryOf(n, before, i);
      if l.i != i || !Enabled(Run(n, before), l) then h
      else
        match l
        case UserSend(_) => h.(sent := h.sent + 1)
        case UserRegister(_) => h.(registered := h.registered + 1)
        case Execute(_, _, sends, registers) =>
          History(h.handled + 1, h.sent + sends, h.registered + registers, h.ran)
        case RunCallback(_, sends, registers) =>
          History(h.handled, h.sent + sends, h.registered + registers, h.ran + 1)
        case _ => h
  }

  ghost predicate Counted(r: Rank, h: History) {
    r.counts == Counts(h.handled, h.sent) && r.callbacks + h.ran == h.registered
  }

  /** In every run the counters of a rank are the handlers it ran and the messages it sent, and
      the callbacks that wait are those registered and not yet run. */
  lemma {:induction false} CountersAreHistory(n: nat, labels: seq<BLabel>, i: nat)
    requires i < n
    ensures |Run(n, labels).ranks| == n && Counted(Run(n, labels).ranks[i], HistoryOf(n, labels, i))
  {
    RunRanks(n, labels);
    if labels != [] {
      var before, l := labels[..|labels| - 1], labels[|labels| - 1];
      CountersAreHistory(n, before, i);
      var s := Run(n, before);
      if Enabled(s, l) && IsLocal(l) && l.i == i {
        LocalCounts(s, l);
      } else {
        OthersCounts(s, l, i);
      }
    }
  }

  lemma {:induction false} OthersCounts(s: BState, l: BLabel, i: nat)
    requires i < |s.ranks| && !(Enabled(s, l) && IsLocal(l) && l.i == i)
    ensures |Next(s, l).ranks| == |s.ranks|
    ensures Next(s, l).ranks[i].counts == s.ranks[i].counts
    ensures Next(s, l).ranks[i].callbacks == s.ranks[i].callbacks
  {
  }

  lemma {:induction false} LocalCounts(s: BState, l: BLabel)
    requires Enabled(s, l) && IsLocal(l)
    ensures |Next(s, l).ranks| == |s.ranks|
    ensures var r, r' := s.ranks[l.i], Next(s, l).ranks[l.i];
      match l
      case UserSend(_) =>
        r'.counts == Counts(r.counts.recv, r.counts.send + 1) && r'.callbacks == r.callbacks
      case UserRegister(_) => r'.counts == r.counts && r'.callbacks == r.callbacks + 1
      case Execute(_, _, sends, registers) =>
        r'.counts == Counts(r.counts.recv + 1, r.counts.send + sends) && r'.callbacks == r.callbacks + registers
      case RunCallback(_, sends, registers) =>
        r'.counts == Counts(r.counts.recv, r.counts.send + sends) && r'.callbacks + 1 == r.callbacks + registers
      case _ => r'.counts == r.counts && r'.callbacks == r.callbacks
  {
  }
}
