/** Ranks are raised: an item that has reached the rank of its representative is never
    forgotten, because the request to raise that rank is still under way. */
module UnionRanks {
  import opened Forest
  import opened Sequences
  import opened UnionProtocol
  import opened UnionRun
  import opened UnionConnectivity

  predicate Asks(m: Msg, r: Item, k: nat) {
    m.Resolve? && m.dest == r && m.mergingRank == k
  }

  /** A request to raise the rank `k` of `r` is in flight. */
  ghost predicate Requested(msgs: seq<Msg>, r: Item, k: nat) {
    exists m :: m in msgs && Asks(m, r, k)
  }

  /** An item below a root of its own rank. */
  ghost predicate Level(items: Items, x: Item)
    requires IsForest(items)
  {
    !IsRoot(items, x) && Look(items, x).rank == Look(items, Root(items, x)).rank
  }

  ghost predicate Owed(items: Items, msgs: seq<Msg>, x: Item)
    requires IsForest(items)
  {
    Level(items, x) ==> Requested(msgs, Root(items, x), Look(items, x).rank)
  }

  ghost predicate AllOwed(items: Items, msgs: seq<Msg>)
    requires IsForest(items)
  {
    forall x :: Owed(items, msgs, x)
  }

  lemma {:induction false} RootRanks(items: Items, x: Item)
    requires IsForest(items)
    ensures Look(items, x).rank <= Look(items, Root(items, x)).rank
  {
  }

  lemma {:induction false} StillRequested(msgs: seq<Msg>, i: nat, out: seq<Msg>, r: Item, k: nat)
    requires i < |msgs| && Requested(msgs, r, k) && !Asks(msgs[i], r, k)
    ensures Requested(Without(msgs, i) + out, r, k)
  {
    var m :| m in msgs && Asks(m, r, k);
    WithoutKeeps(msgs, i);
    assert m in Without(msgs, i) + out;
  }

  /** A link goes below a higher rank, or asks the new parent to raise its own. */
  lemma {:induction false} LinkAsks(hash: Item -> nat, items: Items, cache: Cache, m: Msg)
    requires CanHandle(items, cache, m) && m.Walk?
    requires HandleWalk(hash, items, cache, m).verdict == Linked
    ensures var o := HandleWalk(hash, items, cache, m); var d := items[m.dest];
      && o.data.parent in items
      && (items[o.data.parent].rank > d.rank || Requested(o.out, o.data.parent, d.rank))
  {
    Ends(hash, items, cache, m);
    WalkEffect(hash, items, cache, m);
    var o, d := HandleWalk(hash, items, cache, m), items[m.dest];
    assert Grounded(items, m.dest);
    var (q, r) := OtherEnd(hash, items, cache, m);
    if items[o.data.parent].rank <= d.rank {
      var last := o.out[|o.out| - 1];
      assert last in o.out && Asks(last, o.data.parent, d.rank);
    }
  }

  lemma {:induction false} LinkOwes(hash: Item -> nat, items: Items, cache: Cache, msgs: seq<Msg>, i: nat)
    requires i < |msgs| && CanHandle(items, cache, msgs[i]) && msgs[i].Walk? && AllOwed(items, msgs)
    requires HandleWalk(hash, items, cache, msgs[i]).verdict == Linked
    ensures var o := HandleWalk(hash, items, cache, msgs[i]); var items' := items[msgs[i].dest := o.data];
      IsForest(items') && AllOwed(items', Without(msgs, i) + o.out)
  {
    var m := msgs[i];
    var o := HandleWalk(hash, items, cache, m);
    WalkEffect(hash, items, cache, m);
    LinkAsks(hash, items, cache, m);
    Attach(items, m.dest, o.data);
    hide HandleWalk;
    hide CacheOk;
    var items', msgs' := items[m.dest := o.data], Without(msgs, i) + o.out;
    forall x ensures Owed(items', msgs', x) {
      JoinedOwes(items, msgs, i, o.data, o.out, x);
    }
  }

  /** An item of the tree that was linked owes the new root what the new parent is asked for,
      or what a new parent of that very rank has owed its own root before. */
  lemma {:induction false} JoinedOwes(items: Items, msgs: seq<Msg>, i: nat, d: Data, out: seq<Msg>, x: Item)
    requires i < |msgs| && msgs[i].Walk? && IsForest(items) && AllOwed(items, msgs)
    requires msgs[i].dest in items && IsRoot(items, msgs[i].dest) && d.rank == items[msgs[i].dest].rank
    requires d.parent in items && Below(items, msgs[i].dest, d.parent) && d.est <= items[d.parent].rank
    requires items[d.parent].rank > d.rank || Requested(out, d.parent, d.rank)
    requires IsForest(items[msgs[i].dest := d])
    requires forall y :: Root(items[msgs[i].dest := d], y)
                      == if Root(items, y) == msgs[i].dest then Root(items, d.parent) else Root(items, y)
    ensures Owed(items[msgs[i].dest := d], Without(msgs, i) + out, x)
  {
    var z, p := msgs[i].dest, d.parent;
    var items' := items[z := d];
    var r, k := Root(items', x), Look(items', x).rank;
    RootRanks(items, x);
    RootRanks(items, p);
    assert Owed(items, msgs, x) && Owed(items, msgs, p);
    assert Root(items, p) != z ==> Look(items', Root(items, p)) == Look(items, Root(items, p));
    if Level(items', x) {
      if Root(items, x) != z {
        StillRequested(msgs, i, out, r, k);
      } else {
        assert k == d.rank == items[p].rank;
        if IsRoot(items, p) {
          var m :| m in out && Asks(m, p, k);
          assert m in Without(msgs, i) + out;
        } else {
          StillRequested(msgs, i, out, r, k);
        }
      }
    }
  }

  /** A request that finds a root of the rank it was sent for raises that rank. */
  lemma {:induction false} RequestRaises(hash: Item -> nat, items: Items, cache: Cache, m: Msg)
    requires CanHandle(items, cache, m) && Asks(m, m.dest, items[m.dest].rank) && IsRoot(items, m.dest)
    ensures Handle(hash, items, cache, m).data.rank == items[m.dest].rank + 1
  {
  }

  lemma {:induction false} OtherOwes(hash: Item -> nat, items: Items, cache: Cache, msgs: seq<Msg>, i: nat)
    requires i < |msgs| && CanHandle(items, cache, msgs[i]) && !msgs[i].Walk? && AllOwed(items, msgs)
    ensures var o := Handle(hash, items, cache, msgs[i]); var items' := items[msgs[i].dest := o.data];
      IsForest(items') && AllOwed(items', Without(msgs, i) + o.out)
  {
    var m := msgs[i];
    var o := Handle(hash, items, cache, m);
    var items' := items[m.dest := o.data];
    OtherEffect(hash, items, cache, m);
    hide CacheOk;
    var msgs' := Without(msgs, i) + o.out;
    forall x ensures Owed(items', msgs', x) {
      RootRanks(items, x);
      assert Owed(items, msgs, x);
      var r, k := Root(items, x), Look(items', x).rank;
      if Level(items', x) {
        if Asks(m, r, k) {
          RequestRaises(hash, items, cache, m);
        }
        hide Handle;
        StillRequested(msgs, i, o.out, r, k);
      }
    }
  }

  lemma {:induction false} DeliverOwes(cfg: Config, s: State, i: nat)
    requires Inv(cfg, s) && i < |s.msgs| && AllOwed(s.items, s.msgs)
    ensures var s' := DeliverMsg(cfg, s, i); IsForest(s'.items) && AllOwed(s'.items, s'.msgs)
  {
    var m := s.msgs[i];
    var items, cache := Visit(s.items, m.dest), s.caches[cfg.owner(m.dest)];
    var o := Outcomes(cfg, s, i);
    VisitKeeps(cfg, s, m);
    VisitEvolves(s.items, m.dest);
    forall x ensures Owed(items, s.msgs, x) {
      assert Owed(s.items, s.msgs, x);
    }
    hide CacheOk;
    hide HandleWalk;
    if !m.Walk? {
      OtherOwes(cfg.hash, items, cache, s.msgs, i);
    } else {
      WalkEffect(cfg.hash, items, cache, m);
      if o.verdict == Linked {
        LinkOwes(cfg.hash, items, cache, s.msgs, i);
      } else {
        assert items[m.dest := o.data] == items;
        var msgs' := Without(s.msgs, i) + o.out;
        forall x ensures Owed(items, msgs', x) {
          assert Owed(items, s.msgs, x);
          if Level(items, x) {
            StillRequested(s.msgs, i, o.out, Root(items, x), Look(items, x).rank);
          }
        }
      }
    }
  }

  /** In every reachable state: if an item that is not a root has the rank of its
      representative, a request to raise that rank is in flight. */
  lemma {:induction false} RunOwes(cfg: Config, labels: seq<Label>)
    requires cfg.Valid()
    ensures AllOwed(Run(cfg, labels).items, Run(cfg, labels).msgs)
  {
    if labels != [] {
      var before, l := labels[..|labels| - 1], labels[|labels| - 1];
      var s := Run(cfg, before);
      RunOwes(cfg, before);
      hide DeliverMsg;
      match l
      case Union(q, a, b, execute) =>
        var s' := Next(cfg, s, l);
        forall x ensures Owed(s'.items, s'.msgs, x) {
          assert Owed(s.items, s.msgs, x);
          MoreRequested(s, s'.msgs, x);
        }
      case Deliver(i) =>
        if i < |s.msgs| {
          DeliverOwes(cfg, s, i);
        }
      case _ =>
        NextShortens(cfg, s, l);
        var s' := Next(cfg, s, l);
        forall x ensures Owed(s'.items, s'.msgs, x) {
          assert Owed(s.items, s.msgs, x);
        }
    }
  }

  lemma {:induction false} MoreRequested(s: State, msgs: seq<Msg>, x: Item)
    requires IsForest(s.items) && Owed(s.items, s.msgs, x) && s.msgs <= msgs
    ensures Owed(s.items, msgs, x)
  {
    if Level(s.items, x) {
      var m :| m in s.msgs && Asks(m, Root(s.items, x), Look(s.items, x).rank);
      assert m in msgs;
    }
  }

  /** With no such request in flight every representative ranks strictly above the items of
      its tree. */
  lemma {:induction false} RootsRankHigher(cfg: Config, labels: seq<Label>, x: Item)
    requires cfg.Valid() && forall m :: m in Run(cfg, labels).msgs ==> !m.Resolve?
    ensures var items := Run(cfg, labels).items;
      IsRoot(items, x) || Look(items, x).rank < Look(items, Root(items, x)).rank
  {
    var s := Run(cfg, labels);
    RunOwes(cfg, labels);
    RootRanks(s.items, x);
    assert Owed(s.items, s.msgs, x);
  }

  /** Once a run has come to rest, a union of two different items has raised a rank: that of
      the representative they share. */
  lemma {:induction false} ConnectedRaises(cfg: Config, labels: seq<Label>, x: Item, y: Item)
    requires cfg.Valid() && Run(cfg, labels).msgs == [] && x != y && Connected(Run(cfg, labels).unions, x, y)
    ensures Look(Run(cfg, labels).items, Root(Run(cfg, labels).items, x)).rank >= 1
  {
    SharedRootIffConnected(cfg, labels, x, y);
    RootsRankHigher(cfg, labels, x);
    RootsRankHigher(cfg, labels, y);
  }
}
