/** One rank's part of the disjoint set: the object whose handlers update, in place, the
    entries it owns and its parent cache.  Each handler is proved against the function of
    `UnionProtocol` that the protocol's theorems are about.

    The ghost parameter `forest` stands for the entries of all ranks.  A handler never reads
    it; it is what makes the cached links climb, so that the loop of `walk_cache` ends. */
module DisjointSetRank {
  import opened Forest
  import opened UnionProtocol
  import opened UnionRun

  class DisjointSet {
    const hash: Item -> nat
    const cache: array<Entry>             // m_cache
    var items: Items                      // m_local_item_map
    var isCompressed: bool                // m_is_compressed
    var outbox: seq<Msg>                  // messages handed to the communicator
    var ranTrue: multiset<(Item, Item)>   // callbacks run with true
    var ranFalse: multiset<(Item, Item)>  // callbacks run with false

    ghost predicate Valid() {
      cache.Length > 0
    }

    /** This rank's entries are those of the forest, and its cache tells the truth about it. */
    ghost predicate PartOf(forest: Items)
      reads this, cache
    {
      && Valid() && IsForest(forest) && CacheOk(forest, cache[..])
      && forall x :: x in items ==> x in forest && forest[x] == items[x]
    }

    constructor (cacheSize: nat, hash: Item -> nat)
      requires cacheSize > 0
      ensures Valid() && fresh(cache) && this.hash == hash
      ensures items == map[] && isCompressed && outbox == []
      ensures ranTrue == ranFalse == multiset{}
      ensures cache[..] == seq(cacheSize, _ => Entry(false, 0, 0, 0))
    {
      this.hash := hash;
      cache := new Entry[cacheSize](_ => Entry(false, 0, 0, 0));
      items, isCompressed, outbox := map[], true, [];
      ranTrue, ranFalse := multiset{}, multiset{};
    }

    method AddCacheEntry(x: Item, p: Item, e: nat)
      requires Valid()
      modifies cache
      ensures cache[..] == AddEntry(hash, old(cache[..]), x, p, e)
    {
      var index := hash(x) % cache.Length;
      var current := cache[index];
      if !current.occupied || e >= current.est {
        cache[index] := Entry(true, x, p, e);
      }
    }

    method ShortcutThroughCache(x: Item, r: int, ghost forest: Items) returns (p: Item, e: int)
      requires PartOf(forest) && Fact(forest, x, x, r)
      ensures (p, e) == WalkCache(hash, forest, cache[..], x, r)
    {
      var curr := cache[hash(x) % cache.Length];
      assert EntryOk(forest, cache[..][Slot(hash, cache.Length, x)]);
      if curr.item != x || !curr.occupied || curr.est < r {
        return x, r;
      }
      ghost var first := curr;
      var prev := curr;
      curr := cache[hash(prev.parent) % cache.Length];
      while prev.parent == curr.item && curr.occupied && prev.item != curr.item && prev.est <= curr.est
        invariant prev.occupied && EntryOk(forest, prev)
        invariant curr == cache[..][Slot(hash, cache.Length, prev.parent)]
        invariant Follow(hash, forest, cache[..], first) == Follow(hash, forest, cache[..], prev)
        decreases Above(forest, prev.item)
      {
        assert EntryOk(forest, curr);
        AboveShrinks(forest, prev.item, prev.parent);
        prev := curr;
        curr := cache[hash(prev.parent) % cache.Length];
      }
      return prev.parent, prev.est;
    }

    /** The find-or-insert at the start of every visit. */
    method FindOrInsert(x: Item)
      modifies this`items
      ensures items == Visit(old(items), x)
    {
      if x !in items {
        items := items[x := Data(x, 0, 0)];
      }
    }

    /** `async_union` and `async_union_and_execute`. */
    method AsyncUnion(a: Item, b: Item, call: Call, ghost cfg: Config, ghost s: State, ghost q: nat)
      requires Inv(cfg, s) && q < cfg.ranks && cfg.hash == hash && s.caches[q] == cache[..] && PartOf(s.items)
      modifies this`isCompressed, this`outbox
      ensures !isCompressed
      ensures outbox == old(outbox) + [FirstWalk(cfg, s, q, a, b, call)]
    {
      isCompressed := false;
      var myParent, myRank := ShortcutThroughCache(a, -1, s.items);
      var otherParent, otherRank := ShortcutThroughCache(b, -1, s.items);
      if myRank <= otherRank {
        outbox := outbox + [Walk(myParent, a, otherParent, b, otherRank, call)];
      } else {
        outbox := outbox + [Walk(otherParent, b, myParent, a, myRank, call)];
      }
    }

    method OnWalk(m: Msg, ghost forest: Items)
      requires PartOf(forest) && m.Walk? && m.dest in items && CanHandle(forest, cache[..], m)
      modifies this`items, this`outbox, this`ranTrue, this`ranFalse
      ensures var o := HandleWalk(hash, forest, cache[..], m);
        && items == old(items)[m.dest := o.data]
        && outbox == old(outbox) + o.out
        && ranTrue == old(ranTrue) + Callback(m, o.verdict, Linked)
        && ranFalse == old(ranFalse) + Callback(m, o.verdict, Same)
    {
      hide CacheOk;
      hide Decide;
      hide Splits;
      var data := items[m.dest];
      FactOfParent(forest, m.dest);
      Ends(hash, forest, cache[..], m);
      var myParent, myEst := ShortcutThroughCache(data.parent, data.rank, forest);
      var otherParent, otherRank := ShortcutThroughCache(m.otherParent, m.otherRank, forest);

      SplitPath(m, myParent, myEst);
      Proceed(m, myParent, myEst, otherParent, otherRank);
    }

    method SplitPath(m: Msg, myParent: Item, myEst: nat)
      requires m.Walk? && m.dest in items
      modifies this`outbox
      ensures outbox == old(outbox) + Splits(m, myParent, myEst, items[m.dest].rank)
    {
      if m.child != m.dest {
        outbox := outbox + [Split(m.child, m.dest, myParent, if m.call.Plain? then myEst else items[m.dest].rank)];
      }
    }

    /** The rest of the walk once both ends went through the cache. */
    method Proceed(m: Msg, myParent: Item, myEst: nat, otherParent: Item, otherRank: int)
      requires m.Walk? && m.dest in items
      modifies this`items, this`outbox, this`ranTrue, this`ranFalse
      ensures var (d, onward, verdict) := Decide(old(items)[m.dest], m, myParent, myEst, otherParent, otherRank);
        && items == old(items)[m.dest := d]
        && outbox == old(outbox) + onward
        && ranTrue == old(ranTrue) + Callback(m, verdict, Linked)
        && ranFalse == old(ranFalse) + Callback(m, verdict, Same)
    {
      var data := items[m.dest];
      assert items[m.dest := data] == items;
      if myParent == otherParent || myParent == m.otherItem {
        RunCallback(m, false);
        return;
      }
      if myEst > otherRank {  // the other path has the lower rank
        outbox := outbox + [Walk(otherParent, m.otherItem, myParent, m.dest, myEst, m.call)];
      }
      if myEst < otherRank {  // this path has the lower rank
        if myParent == m.dest {
          items := items[m.dest := data.SetParent(otherParent, otherRank)];
          RunCallback(m, true);
          return;
        } else {
          outbox := outbox + [Walk(myParent, m.dest, otherParent, m.otherItem, otherRank, m.call)];
        }
      }
      if myEst == otherRank {
        SameRank(m, myParent, myEst, otherParent, otherRank);
      }
    }

    /** Both paths have the same rank: ties are broken by the items. */
    method SameRank(m: Msg, myParent: Item, myEst: nat, otherParent: Item, otherRank: int)
      requires m.Walk? && m.dest in items && myEst == otherRank
      requires myParent != otherParent && myParent != m.otherItem
      modifies this`items, this`outbox, this`ranTrue, this`ranFalse
      ensures var (d, onward, verdict) := Decide(old(items)[m.dest], m, myParent, myEst, otherParent, otherRank);
        && items == old(items)[m.dest := d]
        && outbox == old(outbox) + onward
        && ranTrue == old(ranTrue) + Callback(m, verdict, Linked)
        && ranFalse == old(ranFalse) + Callback(m, verdict, Same)
    {
      var data := items[m.dest];
      assert items[m.dest := data] == items;
      if myParent == m.dest {
        if m.dest < otherParent {
          items := items[m.dest := data.SetParent(otherParent, data.rank)];
          RunCallback(m, true);
          outbox := outbox + [Resolve(otherParent, m.dest, data.rank)];
        } else {
          outbox := outbox + [Walk(otherParent, m.otherItem, myParent, m.dest, data.rank, m.call)];
        }
      } else {
        outbox := outbox + [Walk(myParent, m.dest, otherParent, m.otherItem, otherRank, m.call)];
      }
    }

    method RunCallback(m: Msg, result: bool)
      requires m.Walk?
      modifies this`ranTrue, this`ranFalse
      ensures ranTrue == old(ranTrue) + if result then Callback(m, Linked, Linked) else multiset{}
      ensures ranFalse == old(ranFalse) + if result then multiset{} else Callback(m, Same, Same)
    {
      if m.call.Execute? {
        if result {
          ranTrue := ranTrue + multiset{(m.call.a, m.call.b)};
        } else {
          ranFalse := ranFalse + multiset{(m.call.a, m.call.b)};
        }
      }
    }

    method OnSplit(m: Msg)
      requires Valid() && m.Split? && m.dest in items
      modifies this`items, cache
      ensures var o := HandleSplit(hash, old(items)[m.dest], old(cache[..]), m);
        items == old(items)[m.dest := o.data] && cache[..] == o.cache
    {
      var data := items[m.dest];
      assert items[m.dest := data] == items;
      AddCacheEntry(m.oldParent, m.newParent, m.est);
      if m.oldParent == data.parent {
        items := items[m.dest := data.SetParent(m.newParent, m.est)];
      }
    }

    method OnResolve(m: Msg, ghost forest: Items)
      requires PartOf(forest) && m.Resolve? && m.dest in items && CanHandle(forest, cache[..], m)
      modifies this`items, this`outbox
      ensures var o := HandleResolve(old(items)[m.dest], cache[..], m);
        items == old(items)[m.dest := o.data] && outbox == old(outbox) + o.out
      ensures var d := old(items)[m.dest];
        && (d.rank > m.mergingRank ==> items == old(items) && outbox == old(outbox))
        && (d.rank == m.mergingRank && d.parent == m.dest ==>
              && items[m.dest] == Data(m.dest, m.mergingRank + 1, m.mergingRank + 1)
              && outbox == old(outbox))
    {
      var data := items[m.dest];
      assert items[m.dest := data] == items;
      ResolveAssertions(forest, cache[..], m);
      assert data.rank >= m.mergingRank;    // the first release assertion of the handler
      if data.rank > m.mergingRank {
        return;
      }
      assert data.rank == m.mergingRank;    // the second one
      if data.parent == m.dest {
        assert data.rank < m.mergingRank + 1;  // the assertion of increase_rank
        items := items[m.dest := data.(rank := m.mergingRank + 1, est := m.mergingRank + 1)];
      } else {
        outbox := outbox + [Tell(m.merging, data.parent, data.est)];
      }
    }

    /** The lambda that tells a merging item about a better parent: the parent changes only for
        an estimate that is no worse, the rank never, and no item of the forest changes its
        representative. */
    method OnTell(m: Msg, ghost forest: Items)
      requires PartOf(forest) && m.Tell? && m.dest in items && CanHandle(forest, cache[..], m)
      modifies this`items
      ensures items.Keys == old(items).Keys
      ensures forall x :: x in items && x != m.dest ==> items[x] == old(items)[x]
      ensures var d, d' := old(items)[m.dest], items[m.dest];
        && d'.rank == d.rank && d'.est >= d.est
        && (if m.est >= d.est then d'.parent == m.newParent && d'.est == m.est else d' == d)
      ensures var forest' := forest[m.dest := items[m.dest]];
        IsForest(forest') && forall y :: Root(forest', y) == Root(forest, y)
    {
      var data := items[m.dest];
      assert items[m.dest := data] == items;
      OtherEffect(hash, forest, cache[..], m);
      items := items[m.dest := data.SetParent(m.newParent, m.est)];
    }

    /** The visit of one message, from the find-or-insert to the end of its handler. */
    method Receive(m: Msg, ghost forest: Items)
      requires PartOf(forest) && (m.dest in forest ==> m.dest in items)
      requires MsgOk(forest, m)
      modifies this`items, this`outbox, this`ranTrue, this`ranFalse, cache
      ensures CanHandle(Visit(forest, m.dest), old(cache[..]), m)
      ensures var o := Handle(hash, Visit(forest, m.dest), old(cache[..]), m);
        && items == Visit(old(items), m.dest)[m.dest := o.data]
        && cache[..] == o.cache
        && outbox == old(outbox) + o.out
        && ranTrue == old(ranTrue) + Callback(m, o.verdict, Linked)
        && ranFalse == old(ranFalse) + Callback(m, o.verdict, Same)
    {
      ghost var forest' := Visit(forest, m.dest);
      CreateCanHandle(forest, cache[..], m);
      FindOrInsert(m.dest);
      hide CacheOk;
      hide CanHandle;
      hide HandleWalk;
      match m
      case Walk(_, _, _, _, _, _) =>
        WalkEffect(hash, forest', cache[..], m);
        OnWalk(m, forest');
      case Split(_, _, _, _) => OnSplit(m);
      case Resolve(_, _, _) => OnResolve(m, forest');
      case Tell(_, _, _) =>
        ghost var before := items;
        OnTell(m, forest');
        assert items[m.dest] == before[m.dest].SetParent(m.newParent, m.est);
        OneEntryChanged(before, items, m.dest);
    }
  }

  lemma {:induction false} OneEntryChanged(before: Items, items: Items, x: Item)
    requires items.Keys == before.Keys && x in items
    requires forall y :: y in items && y != x ==> items[y] == before[y]
    ensures items == before[x := items[x]]
  {
    var items' := before[x := items[x]];
    assert items'.Keys == items.Keys;
    forall y | y in items ensures items'[y] == items[y] {
    }
  }

  /** After the visited item has been found or created, its message can be handled. */
  lemma {:induction false} CreateCanHandle(forest: Items, cache: Cache, m: Msg)
    requires IsForest(forest) && CacheOk(forest, cache) && MsgOk(forest, m)
    ensures var forest' := Visit(forest, m.dest);
      IsForest(forest') && CacheOk(forest', cache) && CanHandle(forest', cache, m)
  {
    VisitEvolves(forest, m.dest);
    CacheStable(forest, Visit(forest, m.dest), cache);
    MsgStable(forest, Visit(forest, m.dest), m);
  }

  // ----- the ranks together -----

  /** A delivery of the global protocol is what `Receive` does on the owner of the visited
      item; no other rank's entries or cache change. */
  lemma {:induction false} DeliveryIsLocal(cfg: Config, s: State, i: nat, p: nat)
    requires Inv(cfg, s) && i < |s.msgs| && p < cfg.ranks
    ensures var s' := DeliverMsg(cfg, s, i); var m := s.msgs[i];
      if p == cfg.owner(m.dest) then
        && Owned(cfg, s'.items, p) == Visit(Owned(cfg, s.items, p), m.dest)[m.dest := Outcomes(cfg, s, i).data]
        && s'.caches[p] == Outcomes(cfg, s, i).cache
      else
        Owned(cfg, s'.items, p) == Owned(cfg, s.items, p) && s'.caches[p] == s.caches[p]
  {
    hide HandleWalk;
    hide CacheOk;
    hide MsgsOk;
    VisitKeeps(cfg, s, s.msgs[i]);
    OneItemIsLocal(cfg, s.items, s.msgs[i].dest, Outcomes(cfg, s, i).data, p);
  }

  lemma {:induction false} OneItemIsLocal(cfg: Config, items: Items, x: Item, d: Data, p: nat)
    ensures var items' := Visit(items, x)[x := d];
      Owned(cfg, items', p) ==
        if p == cfg.owner(x) then Visit(Owned(cfg, items, p), x)[x := d] else Owned(cfg, items, p)
  {
  }
}
