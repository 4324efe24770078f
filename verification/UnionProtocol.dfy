/** The asynchronous union protocol of `disjoint_set_impl` as a state machine.

    A handler runs to completion on the rank that owns the visited item.  It reads and
    writes the entry of that item and the parent cache of that rank, and sends messages.
    Messages may be delivered in any order.  `WalkCache` terminates only because keys rise along cached
    links, so the functions below are defined on states that satisfy the invariant, and
    `Run` shows that every run stays inside it. */
module UnionProtocol {
  import opened Forest

  // ----- the parent cache of a rank -----

  datatype Entry = Entry(occupied: bool, item: Item, parent: Item, est: nat)

  type Cache = seq<Entry>

  function Slot(hash: Item -> nat, size: nat, x: Item): (i: nat)
    requires size > 0
    ensures i < size
  {
    hash(x) % size
  }

  /** `add_cache_entry`: an occupied slot is replaced only on an estimate that is no worse. */
  function AddEntry(hash: Item -> nat, cache: Cache, x: Item, p: Item, e: nat): Cache
    requires |cache| > 0
  {
    var i := Slot(hash, |cache|, x);
    if !cache[i].occupied || e >= cache[i].est then cache[i := Entry(true, x, p, e)] else cache
  }

  ghost predicate EntryOk(items: Items, c: Entry)
    requires IsForest(items)
  {
    c.occupied ==> Fact(items, c.item, c.parent, c.est)
  }

  ghost predicate CacheOk(items: Items, cache: Cache)
    requires IsForest(items)
  {
    |cache| > 0 && forall i :: 0 <= i < |cache| ==> EntryOk(items, cache[i])
  }

  /** The loop condition of `walk_cache`. */
  predicate Continues(prev: Entry, curr: Entry) {
    prev.parent == curr.item && curr.occupied && prev.item != curr.item && prev.est <= curr.est
  }

  /** The rest of the loop of `walk_cache` once it stands on an occupied entry. */
  ghost function Follow(hash: Item -> nat, items: Items, cache: Cache, c: Entry): (r: (Item, nat))
    requires IsForest(items) && CacheOk(items, cache)
    requires c.occupied && EntryOk(items, c)
    ensures Fact(items, c.item, r.0, r.1) && r.1 >= c.est
    ensures c.parent == c.item ==> r.0 == c.item
    decreases Above(items, c.item)
  {
    var i := Slot(hash, |cache|, c.parent);
    assert EntryOk(items, cache[i]);
    if Continues(c, cache[i]) then
      AboveShrinks(items, c.item, c.parent);
      Follow(hash, items, cache, cache[i])
    else
      (c.parent, c.est)
  }

  /** `walk_cache`: shortcut `x`, whose rank is known to be at least `r`, through the cache. */
  ghost function WalkCache(hash: Item -> nat, items: Items, cache: Cache, x: Item, r: int): (res: (Item, int))
    requires IsForest(items) && CacheOk(items, cache)
    requires Fact(items, x, x, r)
    ensures Fact(items, x, res.0, res.1) && res.1 >= r
  {
    var c := cache[Slot(hash, |cache|, x)];
    assert EntryOk(items, c);
    if c.item != x || !c.occupied || c.est < r then (x, r) else Follow(hash, items, cache, c)
  }

  // ----- messages -----

  /** Which public call a walk serves; `Execute` carries the items handed to the callback. */
  datatype Call = Plain | Execute(a: Item, b: Item)

  datatype Msg =
    | Walk(dest: Item, child: Item, otherParent: Item, otherItem: Item, otherRank: int, call: Call)
    | Split(dest: Item, oldParent: Item, newParent: Item, est: nat)
    | Resolve(dest: Item, merging: Item, mergingRank: nat)
    | Tell(dest: Item, newParent: Item, est: nat)

  ghost predicate MsgOk(items: Items, m: Msg)
    requires IsForest(items)
  {
    match m
    case Walk(_, _, otherParent, otherItem, otherRank, _) =>
      Fact(items, otherItem, otherParent, otherRank)
    case Split(dest, oldParent, newParent, est) =>
      oldParent != dest && Fact(items, oldParent, newParent, est)
    case Resolve(dest, merging, mergingRank) =>
      merging != dest && Fact(items, merging, dest, mergingRank) && Look(items, merging).rank == mergingRank
    case Tell(dest, newParent, est) =>
      newParent != dest && Fact(items, dest, newParent, est)
  }

  ghost predicate MsgsOk(items: Items, msgs: seq<Msg>)
    requires IsForest(items)
  {
    forall m :: m in msgs ==> MsgOk(items, m)
  }

  // ----- handlers -----

  /** How a walk ended: it goes on, found both ends in one tree, or linked two trees. */
  datatype Verdict = Forwarded | Same | Linked

  datatype Outcome = Outcome(data: Data, cache: Cache, out: seq<Msg>, verdict: Verdict)

  ghost predicate CanHandle(items: Items, cache: Cache, m: Msg) {
    IsForest(items) && CacheOk(items, cache) && m.dest in items && MsgOk(items, m)
  }

  /** Where the visited item's own path has got to, and a lower bound of that item's rank. */
  ghost function MyEnd(hash: Item -> nat, items: Items, cache: Cache, m: Msg): (r: (Item, int))
    requires CanHandle(items, cache, m)
  {
    var d := items[m.dest];
    FactOfParent(items, m.dest);
    WalkCache(hash, items, cache, d.parent, d.rank)
  }

  /** The same for the other path. */
  ghost function OtherEnd(hash: Item -> nat, items: Items, cache: Cache, m: Msg): (r: (Item, int))
    requires CanHandle(items, cache, m) && m.Walk?
  {
    WalkCache(hash, items, cache, m.otherParent, m.otherRank)
  }

  /** The path-splitting message.  The two public calls pass on different estimates. */
  function Splits(m: Msg, myParent: Item, myEst: nat, myRank: nat): seq<Msg>
    requires m.Walk?
  {
    if m.child != m.dest then
      [Split(m.child, m.dest, myParent, if m.call.Plain? then myEst else myRank)]
    else
      []
  }

  /** The decision of `simul_parent_walk_functor` once both ends went through the cache:
      the new entry, the message that goes on, and how the walk ended. */
  function Decide(d: Data, m: Msg, myParent: Item, myEst: nat, otherParent: Item, otherRank: int)
    : (Data, seq<Msg>, Verdict)
    requires m.Walk?
  {
    if myParent == otherParent || myParent == m.otherItem then
      (d, [], Same)
    else if myEst > otherRank then
      (d, [Walk(otherParent, m.otherItem, myParent, m.dest, myEst, m.call)], Forwarded)
    else if myParent != m.dest then
      (d, [Walk(myParent, m.dest, otherParent, m.otherItem, otherRank, m.call)], Forwarded)
    else if myEst < otherRank then
      (d.SetParent(otherParent, otherRank), [], Linked)
    else if m.dest < otherParent then
      (d.SetParent(otherParent, d.rank), [Resolve(otherParent, m.dest, d.rank)], Linked)
    else
      (d, [Walk(otherParent, m.otherItem, myParent, m.dest, d.rank, m.call)], Forwarded)
  }

  /** `simul_parent_walk_functor`. */
  ghost function HandleWalk(hash: Item -> nat, items: Items, cache: Cache, m: Msg): Outcome
    requires CanHandle(items, cache, m) && m.Walk?
  {
    var (myParent, myEst) := MyEnd(hash, items, cache, m);
    var (otherParent, otherRank) := OtherEnd(hash, items, cache, m);
    Ends(hash, items, cache, m);
    var d := items[m.dest];
    var (d', onward, verdict) := Decide(d, m, myParent, myEst, otherParent, otherRank);
    Outcome(d', cache, Splits(m, myParent, myEst, d.rank) + onward, verdict)
  }

  /** `update_parent_and_cache_lambda`. */
  function HandleSplit(hash: Item -> nat, d: Data, cache: Cache, m: Msg): Outcome
    requires m.Split? && |cache| > 0
  {
    Outcome(if m.oldParent == d.parent then d.SetParent(m.newParent, m.est) else d,
            AddEntry(hash, cache, m.oldParent, m.newParent, m.est), [], Forwarded)
  }

  /** `resolve_merge_lambda`; its assertions are shown to hold in `ResolveAssertions`. */
  function HandleResolve(d: Data, cache: Cache, m: Msg): Outcome
    requires m.Resolve?
  {
    if d.rank > m.mergingRank then
      Outcome(d, cache, [], Forwarded)
    else if d.parent == m.dest then
      Outcome(Data(d.parent, m.mergingRank + 1, m.mergingRank + 1), cache, [], Forwarded)
    else
      Outcome(d, cache, [Tell(m.merging, d.parent, d.est)], Forwarded)
  }

  ghost function Handle(hash: Item -> nat, items: Items, cache: Cache, m: Msg): Outcome
    requires CanHandle(items, cache, m)
  {
    var d := items[m.dest];
    match m
    case Walk(_, _, _, _, _, _) => HandleWalk(hash, items, cache, m)
    case Split(_, _, _, _) => HandleSplit(hash, d, cache, m)
    case Resolve(_, _, _) => HandleResolve(d, cache, m)
    case Tell(_, newParent, est) => Outcome(d.SetParent(newParent, est), cache, [], Forwarded)
  }

  // ----- what handlers do to the forest -----

  /** The ends a walk compares: its own end is the visited item exactly when that item is a
      root, and then its rank is known exactly. */
  lemma {:induction false} Ends(hash: Item -> nat, items: Items, cache: Cache, m: Msg)
    requires CanHandle(items, cache, m) && m.Walk?
    ensures var (p, e) := MyEnd(hash, items, cache, m);
      && Fact(items, m.dest, p, e) && e >= items[m.dest].rank
      && (p == m.dest <==> IsRoot(items, m.dest))
      && (IsRoot(items, m.dest) ==> e == items[m.dest].rank)
    ensures var (q, r) := OtherEnd(hash, items, cache, m);
      Fact(items, m.otherItem, q, r) && Fact(items, m.otherParent, q, r) && r >= m.otherRank
  {
    FactOfParent(items, m.dest);
    var d := items[m.dest];
    var (p, e) := MyEnd(hash, items, cache, m);
    var (q, r) := OtherEnd(hash, items, cache, m);
    if d.parent != m.dest {
      FactChain(items, m.dest, d.parent, p, d.rank, e);
    }
    if m.otherItem != m.otherParent {
      FactChain(items, m.otherItem, m.otherParent, q, m.otherRank, r);
    }
  }

  /** What the visit of a walk does to the forest, seen from its two ends. */
  lemma {:induction false} WalkEffect(hash: Item -> nat, items: Items, cache: Cache, m: Msg)
    requires CanHandle(items, cache, m) && m.Walk?
    ensures var o := HandleWalk(hash, items, cache, m); var d := items[m.dest];
      && o.cache == cache
      && (o.verdict != Linked ==> o.data == d)
      && (o.verdict == Linked ==>
            && IsRoot(items, m.dest) && o.data.rank == d.rank
            && o.data.parent in items && Below(items, m.dest, o.data.parent)
            && o.data.est <= items[o.data.parent].rank
            && Root(items, o.data.parent) == Root(items, m.otherParent))
      && (o.verdict == Same ==> Root(items, m.dest) == Root(items, m.otherParent))
  {
    Ends(hash, items, cache, m);
    assert Grounded(items, m.dest);
  }

  /** The shape of what a walk sends: at most one message that carries it on, and to the item it
      came from, if that was another one, the news of a parent further up. */
  lemma {:induction false} WalkOut(hash: Item -> nat, items: Items, cache: Cache, m: Msg)
    requires CanHandle(items, cache, m) && m.Walk?
    ensures var o := HandleWalk(hash, items, cache, m);
      && |o.out| <= 2
      && (|o.out| == 2 ==> o.out[0].Split?)
      && (o.verdict == Forwarded ==> |o.out| > 0 && o.out[|o.out| - 1].Walk? && o.out[|o.out| - 1].call == m.call)
      && (o.verdict != Forwarded ==> forall n :: n in o.out ==> !n.Walk?)
      && (m.child == m.dest ==> |o.out| <= 1 && forall n :: n in o.out ==> !n.Split?)
      && (m.child != m.dest ==>
            && |o.out| > 0 && o.out[0].Split? && o.out[0].dest == m.child && o.out[0].oldParent == m.dest
            && (IsRoot(items, m.dest) || Below(items, m.dest, o.out[0].newParent)))
  {
    Ends(hash, items, cache, m);
  }

  lemma {:induction false} WalkSends(hash: Item -> nat, items: Items, cache: Cache, m: Msg)
    requires CanHandle(items, cache, m) && m.Walk?
    requires HandleWalk(hash, items, cache, m).verdict != Linked
    ensures MsgsOk(items, HandleWalk(hash, items, cache, m).out)
  {
    Ends(hash, items, cache, m);
    FactOfParent(items, m.dest);
  }

  /** Attaching a root makes its new parent a fact. */
  lemma {:induction false} AttachEvolves(items: Items, x: Item, d: Data)
    requires IsForest(items) && x in items && IsRoot(items, x)
    requires d.rank == items[x].rank && d.parent in items && Below(items, x, d.parent)
    requires d.est <= items[d.parent].rank
    ensures Evolves(items, items[x := d])
    ensures Fact(items[x := d], x, d.parent, d.rank)
  {
    var items' := items[x := d];
    Attach(items, x, d);
    forall y ensures Merges(items, items', y) {
    }
    FactOfParent(items', x);
  }

  lemma {:induction false} SameRootsEvolves(items: Items, items': Items)
    requires IsForest(items) && IsForest(items') && items.Keys <= items'.Keys
    requires forall x :: Root(items', x) == Root(items, x)
    requires forall x :: Look(items, x).rank <= Look(items', x).rank
    requires forall x :: !IsRoot(items, x) ==> !IsRoot(items', x) && Look(items, x).rank == Look(items', x).rank
    ensures Evolves(items, items')
  {
    forall x ensures Merges(items, items', x) {
    }
  }

  /** What the other handlers do: the representatives stay, and only a root changes its rank. */
  lemma {:induction false} OtherEffect(hash: Item -> nat, items: Items, cache: Cache, m: Msg)
    requires CanHandle(items, cache, m) && !m.Walk?
    ensures var o := Handle(hash, items, cache, m); var items' := items[m.dest := o.data];
      && Evolves(items, items')
      && (forall y :: Root(items', y) == Root(items, y))
      && (forall y :: IsRoot(items', y) <==> IsRoot(items, y))
      && (o.data.rank != items[m.dest].rank ==>
            && m.Resolve? && IsRoot(items, m.dest)
            && m.mergingRank == items[m.dest].rank && o.data.rank == m.mergingRank + 1)
      && (m.Resolve? ==> items[m.dest].rank >= m.mergingRank)
  {
    var d := items[m.dest];
    var d' := Handle(hash, items, cache, m).data;
    assert Grounded(items, m.dest);
    if d' == d {
      assert items[m.dest := d'] == items;
    } else if d'.rank > d.rank {
      Promote(items, m.dest, d');
    } else {
      Reparent(items, m.dest, d');
    }
    SameRootsEvolves(items, items[m.dest := d']);
  }

  /** A merge request always finds a rank that is at least the merging one, and a rank is
      only raised to a larger value. */
  lemma {:induction false} ResolveAssertions(items: Items, cache: Cache, m: Msg)
    requires CanHandle(items, cache, m) && m.Resolve?
    ensures items[m.dest].rank >= m.mergingRank
    ensures HandleResolve(items[m.dest], cache, m).data.rank != items[m.dest].rank ==>
              && items[m.dest].rank == m.mergingRank < m.mergingRank + 1
              && items[m.dest].parent == m.dest
  {
  }

  lemma {:induction false} CacheStable(items: Items, items': Items, cache: Cache)
    requires Evolves(items, items') && CacheOk(items, cache)
    ensures CacheOk(items', cache)
  {
    forall i | 0 <= i < |cache| ensures EntryOk(items', cache[i]) {
      assert EntryOk(items, cache[i]);
      if cache[i].occupied {
        FactStable(items, items', cache[i].item, cache[i].parent, cache[i].est);
      }
    }
  }

  lemma {:induction false} MsgStable(items: Items, items': Items, m: Msg)
    requires Evolves(items, items') && MsgOk(items, m)
    ensures MsgOk(items', m)
  {
    match m
    case Walk(_, _, otherParent, otherItem, otherRank, _) =>
      FactStable(items, items', otherItem, otherParent, otherRank);
    case Split(dest, oldParent, newParent, est) =>
      FactStable(items, items', oldParent, newParent, est);
    case Resolve(dest, merging, mergingRank) =>
      FactStable(items, items', merging, dest, mergingRank);
    case Tell(dest, newParent, est) =>
      FactStable(items, items', dest, newParent, est);
  }

  lemma {:induction false} MsgsStable(items: Items, items': Items, msgs: seq<Msg>)
    requires Evolves(items, items') && MsgsOk(items, msgs)
    ensures MsgsOk(items', msgs)
  {
    forall m | m in msgs ensures MsgOk(items', m) {
      MsgStable(items, items', m);
    }
  }

  /** Every handler keeps the forest, its cache, and the promises of the messages it sends. */
  lemma {:induction false} HandleKeeps(hash: Item -> nat, items: Items, cache: Cache, m: Msg)
    requires CanHandle(items, cache, m)
    ensures var o := Handle(hash, items, cache, m); var items' := items[m.dest := o.data];
      Evolves(items, items') && CacheOk(items', o.cache) && MsgsOk(items', o.out)
  {
    var o := Handle(hash, items, cache, m);
    var items' := items[m.dest := o.data];
    match m
    case Walk(_, _, _, _, _, _) =>
      WalkEffect(hash, items, cache, m);
      if o.verdict == Linked {
        AttachEvolves(items, m.dest, o.data);
        LinkSends(hash, items, cache, m);
      } else {
        assert items' == items;
        SameRootsEvolves(items, items);
        WalkSends(hash, items, cache, m);
      }
      CacheStable(items, items', cache);
    case Split(_, _, _, _) =>
      OtherEffect(hash, items, cache, m);
      CacheStable(items, items', cache);
      FactStable(items, items', m.oldParent, m.newParent, m.est);
    case Resolve(_, _, _) =>
      OtherEffect(hash, items, cache, m);
      CacheStable(items, items', cache);
      if o.out != [] {
        assert items' == items;
        FactOfParent(items, m.dest);
        FactChain(items, m.merging, m.dest, items[m.dest].parent, m.mergingRank, items[m.dest].est);
      }
    case Tell(_, _, _) =>
      OtherEffect(hash, items, cache, m);
      CacheStable(items, items', cache);
  }

  lemma {:induction false} LinkSends(hash: Item -> nat, items: Items, cache: Cache, m: Msg)
    requires CanHandle(items, cache, m) && m.Walk?
    requires HandleWalk(hash, items, cache, m).verdict == Linked
    ensures var o := HandleWalk(hash, items, cache, m); var items' := items[m.dest := o.data];
      IsForest(items') && MsgsOk(items', o.out)
  {
    var o := HandleWalk(hash, items, cache, m);
    var items' := items[m.dest := o.data];
    Ends(hash, items, cache, m);
    WalkEffect(hash, items, cache, m);
    AttachEvolves(items, m.dest, o.data);
    var (p, e) := MyEnd(hash, items, cache, m);
    FactStable(items, items', m.dest, p, e);
  }

  // ----- what splitting, telling and caching achieve -----

  /** The news of a parent further up is taken while the parent it replaces is still there and
      the estimate is no worse: then the parent rises. */
  lemma {:induction false} NewsRaisesParent(hash: Item -> nat, items: Items, cache: Cache, m: Msg)
    requires CanHandle(items, cache, m) && (m.Split? || m.Tell?) && m.est >= items[m.dest].est
    requires m.Split? ==> m.oldParent == items[m.dest].parent
    ensures var p, p' := items[m.dest].parent, Handle(hash, items, cache, m).data.parent;
      && p' == m.newParent && Below(items, m.dest, p')
      && (m.Split? && p' != p ==> Below(items, p, p'))
  {
    assert Grounded(items, m.dest);
  }

  /** A request to raise the rank of an item that is no root any more sends the merging item to
      the parent of that item, which lies further up. */
  lemma {:induction false} RequestTells(hash: Item -> nat, items: Items, cache: Cache, m: Msg)
    requires CanHandle(items, cache, m) && m.Resolve? && !IsRoot(items, m.dest)
    requires items[m.dest].rank == m.mergingRank
    ensures var o := Handle(hash, items, cache, m);
      && |o.out| == 1 && o.out[0].Tell? && o.out[0].dest == m.merging
      && Below(items, m.dest, o.out[0].newParent)
  {
    assert Grounded(items, m.dest);
  }

  lemma {:induction false} FollowClimbs(hash: Item -> nat, items: Items, cache: Cache, c: Entry)
    requires IsForest(items) && CacheOk(items, cache) && c.occupied && EntryOk(items, c) && c.parent != c.item
    ensures Below(items, c.item, Follow(hash, items, cache, c).0)
  {
    assert Fact(items, c.item, Follow(hash, items, cache, c).0, Follow(hash, items, cache, c).1);
    var next := cache[Slot(hash, |cache|, c.parent)];
    assert EntryOk(items, next);
    if Continues(c, next) {
      assert Fact(items, next.item, Follow(hash, items, cache, next).0, Follow(hash, items, cache, next).1);
    }
  }

  /** An item whose parent has been put into the cache is passed by the next walk that knows no
      more about its rank. */
  lemma {:induction false} CacheLearns(hash: Item -> nat, items: Items, cache: Cache, x: Item, p: Item, e: nat, r: int)
    requires IsForest(items) && CacheOk(items, cache) && Fact(items, x, p, e) && p != x
    requires Fact(items, x, x, r) && r <= e
    requires var c := cache[Slot(hash, |cache|, x)]; !c.occupied || c.est <= e
    ensures var cache' := AddEntry(hash, cache, x, p, e);
      && CacheOk(items, cache') && Below(items, x, WalkCache(hash, items, cache', x, r).0)
  {
    var cache' := AddEntry(hash, cache, x, p, e);
    forall i | 0 <= i < |cache'| ensures EntryOk(items, cache'[i]) {
      assert i < |cache| && EntryOk(items, cache[i]);
    }
    FollowClimbs(hash, items, cache', Entry(true, x, p, e));
  }
}
