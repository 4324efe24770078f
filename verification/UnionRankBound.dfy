/** Ranks stay logarithmic in the number of items although a rank is raised only when the
    merge request of an equal-rank link arrives, possibly long after the link. */
module UnionRankBound {
  import opened Forest
  import opened UnionProtocol
  import opened UnionRun
  import opened Sets

  function Pow2(n: nat): (r: nat)
    ensures r >= 1
  {
    if n == 0 then 1 else 2 * Pow2(n - 1)
  }

  lemma {:induction false} Pow2Monotone(m: nat, n: nat)
    requires m <= n
    ensures Pow2(m) <= Pow2(n)
    decreases n
  {
    if m < n {
      Pow2Monotone(m, n - 1);
    }
  }

  ghost function Tree(items: Items, r: Item): set<Item>
    requires IsForest(items)
  {
    set x | x in items && Root(items, x) == r
  }

  ghost predicate Sized(items: Items, r: Item)
    requires IsForest(items)
  {
    r in items && IsRoot(items, r) ==> |Tree(items, r)| >= Pow2(items[r].rank)
  }

  /** A pending merge request that would raise the rank of a root has the items to pay for it. */
  ghost predicate Paid(items: Items, m: Msg)
    requires IsForest(items)
  {
    m.Resolve? && m.dest in items && IsRoot(items, m.dest) && items[m.dest].rank == m.mergingRank ==>
      |Tree(items, m.dest)| >= Pow2(m.mergingRank + 1)
  }

  ghost predicate SizeInv(items: Items, msgs: seq<Msg>)
    requires IsForest(items)
  {
    (forall r :: Sized(items, r)) && (forall m :: m in msgs ==> Paid(items, m))
  }

  /** Nothing changes for sizes while representatives, keys, ranks and roots are the same. */
  lemma {:induction false} SizesCongruent(items: Items, items': Items, msgs: seq<Msg>)
    requires IsForest(items) && IsForest(items') && SizeInv(items, msgs)
    requires items.Keys == items'.Keys
    requires forall x :: Root(items', x) == Root(items, x)
    requires forall x :: IsRoot(items', x) <==> IsRoot(items, x)
    requires forall x :: Look(items', x).rank == Look(items, x).rank
    ensures SizeInv(items', msgs)
  {
    forall r ensures Tree(items', r) == Tree(items, r) {
    }
    forall r ensures Sized(items', r) {
      assert Sized(items, r) && Look(items', r).rank == Look(items, r).rank;
    }
    forall m | m in msgs ensures Paid(items', m) {
      assert Paid(items, m) && Look(items', m.dest).rank == Look(items, m.dest).rank;
    }
  }

  lemma {:induction false} VisitSizes(items: Items, x: Item, msgs: seq<Msg>)
    requires IsForest(items) && SizeInv(items, msgs) && MsgsOk(items, msgs)
    ensures IsForest(Visit(items, x)) && SizeInv(Visit(items, x), msgs)
  {
    VisitEvolves(items, x);
    var items' := Visit(items, x);
    if x !in items {
      assert Root(items, x) == x;
      forall r ensures Tree(items', r) == if r == x then Tree(items, r) + {x} else Tree(items, r) {
      }
      forall r ensures Sized(items', r) {
        assert Sized(items, r);
        assert r == x ==> x in Tree(items', r);
      }
      forall m | m in msgs ensures Paid(items', m) {
        assert Paid(items, m) && MsgOk(items, m);
      }
    }
  }

  lemma {:induction false} PromotionSizes(hash: Item -> nat, items: Items, cache: Cache, m: Msg, msgs: seq<Msg>)
    requires CanHandle(items, cache, m) && !m.Walk? && m in msgs
    requires SizeInv(items, msgs) && MsgsOk(items, msgs)
    ensures var o := Handle(hash, items, cache, m); var items' := items[m.dest := o.data];
      IsForest(items') && SizeInv(items', msgs)
  {
    var o := Handle(hash, items, cache, m);
    var items' := items[m.dest := o.data];
    OtherEffect(hash, items, cache, m);
    forall r ensures Tree(items', r) == Tree(items, r) {
    }
    assert Paid(items, m);
    forall r ensures Sized(items', r) {
      assert Sized(items, r);
    }
    forall n | n in msgs ensures Paid(items', n) {
      assert Paid(items, n) && MsgOk(items, n);
    }
  }

  lemma {:induction false} LinkSizes(hash: Item -> nat, items: Items, cache: Cache, m: Msg, msgs: seq<Msg>)
    requires CanHandle(items, cache, m) && m.Walk?
    requires SizeInv(items, msgs)
    requires HandleWalk(hash, items, cache, m).verdict == Linked
    ensures var o := HandleWalk(hash, items, cache, m); var items' := items[m.dest := o.data];
      IsForest(items') && SizeInv(items', msgs) && forall n :: n in o.out ==> Paid(items', n)
  {
    var o := HandleWalk(hash, items, cache, m);
    var items' := items[m.dest := o.data];
    WalkEffect(hash, items, cache, m);
    Attach(items, m.dest, o.data);
    var top := Root(items, o.data.parent);
    assert Tree(items', top) == Tree(items, top) + Tree(items, m.dest);
    assert Tree(items, top) !! Tree(items, m.dest);
    assert |Tree(items', top)| == |Tree(items, top)| + |Tree(items, m.dest)|;
    assert Sized(items, m.dest);
    forall r ensures Sized(items', r) {
      assert Sized(items, r);
      assert r != top && r != m.dest ==> Tree(items', r) == Tree(items, r);
    }
    forall n | n in msgs ensures Paid(items', n) {
      assert Paid(items, n);
      assert n.dest != top && n.dest != m.dest ==> Tree(items', n.dest) == Tree(items, n.dest);
    }
    forall n | n in o.out ensures Paid(items', n) {
      if n.Resolve? {
        assert n.dest == o.data.parent && n.mergingRank == items[m.dest].rank;
        assert Sized(items, top);
        assert IsRoot(items', n.dest) ==> n.dest == top;
        assert Pow2(n.mergingRank + 1) == 2 * Pow2(n.mergingRank);
      }
    }
  }

  /** Only a link asks for a merge to be resolved. */
  lemma {:induction false} OnlyLinksResolve(hash: Item -> nat, items: Items, cache: Cache, m: Msg)
    requires CanHandle(items, cache, m)
    ensures var o := Handle(hash, items, cache, m);
      (exists n :: n in o.out && n.Resolve?) ==> m.Walk? && o.verdict == Linked
  {
  }

  lemma {:induction false} DeliverSizes(cfg: Config, s: State, i: nat)
    requires Inv(cfg, s) && i < |s.msgs| && SizeInv(s.items, s.msgs)
    ensures var s' := DeliverMsg(cfg, s, i); IsForest(s'.items) && SizeInv(s'.items, s'.msgs)
  {
    var m := s.msgs[i];
    var items := Visit(s.items, m.dest);
    var cache := s.caches[cfg.owner(m.dest)];
    var s' := DeliverMsg(cfg, s, i);
    var o := Outcomes(cfg, s, i);
    hide Tree;
    hide Handle;
    hide CacheOk;
    hide Grounded;
    VisitKeeps(cfg, s, m);
    OnlyLinksResolve(cfg.hash, items, cache, m);
    VisitEvolves(s.items, m.dest);
    VisitSizes(s.items, m.dest, s.msgs);
    MsgsStable(s.items, items, s.msgs);
    DeliverKeepsInv(cfg, s, i);
    if !m.Walk? {
      PromotionSizes(cfg.hash, items, cache, m, s.msgs);
    } else {
      WalkEffect(cfg.hash, items, cache, m);
      if o.verdict == Linked {
        LinkSizes(cfg.hash, items, cache, m, s.msgs);
      } else {
        assert s'.items == items;
      }
    }
    assert SizeInv(s'.items, s.msgs);
    forall n | n in s'.msgs ensures Paid(s'.items, n) {
      assert n in s.msgs || n in o.out;
    }
  }

  lemma {:induction false} RunSizes(cfg: Config, labels: seq<Label>)
    requires cfg.Valid()
    ensures SizeInv(Run(cfg, labels).items, Run(cfg, labels).msgs)
  {
    if labels != [] {
      var before := labels[..|labels| - 1];
      var l := labels[|labels| - 1];
      var s := Run(cfg, before);
      hide DeliverMsg;
      RunSizes(cfg, before);
      match l
      case Union(q, a, b, execute) =>
      case Deliver(i) =>
        if i < |s.msgs| {
          DeliverSizes(cfg, s, i);
        }
      case _ =>
        NextShortens(cfg, s, l);
        SizesCongruent(s.items, Next(cfg, s, l).items, s.msgs);
    }
  }

  /** In every reachable state a rank is at most the binary logarithm of the number of items. */
  lemma {:induction false} RankBound(cfg: Config, labels: seq<Label>, x: Item)
    requires cfg.Valid() && x in Run(cfg, labels).items
    ensures var items := Run(cfg, labels).items; Pow2(items[x].rank) <= |Tree(items, Root(items, x))| <= |items|
  {
    var items := Run(cfg, labels).items;
    RunSizes(cfg, labels);
    var r := Root(items, x);
    assert Sized(items, r) && Look(items, x).rank <= Look(items, r).rank;
    Pow2Monotone(items[x].rank, items[r].rank);
    SubsetSize(Tree(items, r), items.Keys);
  }

  const MAX_RANK: nat := 32767

  /** `rank_type` is `int16_t`: with fewer than 2^32768 items a rank never leaves it. */
  lemma {:induction false} RankFitsInt16(cfg: Config, labels: seq<Label>, x: Item)
    requires cfg.Valid() && x in Run(cfg, labels).items
    requires |Run(cfg, labels).items| < Pow2(MAX_RANK + 1)
    ensures Run(cfg, labels).items[x].rank <= MAX_RANK
  {
    RankBound(cfg, labels, x);
    if Run(cfg, labels).items[x].rank > MAX_RANK {
      Pow2Monotone(MAX_RANK + 1, Run(cfg, labels).items[x].rank);
    }
  }
}
