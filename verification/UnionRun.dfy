/** Whole runs of the disjoint set: any rank may issue unions at any time, in-flight
    messages are delivered in any order, and `all_find` and `all_compress` may be called at
    quiescence. */
module UnionRun {
  import opened Forest
  import opened UnionProtocol
  import opened Sequences

  /** The number of ranks, the hash function, the cache size and the partitioner. */
  datatype Config = Config(ranks: nat, cacheSize: nat, hash: Item -> nat, owner: Item -> nat) {
    ghost predicate Valid() {
      ranks > 0 && cacheSize > 0 && forall x :: owner(x) < ranks
    }
  }

  /** The entries a rank owns. */
  function Owned(cfg: Config, items: Items, q: nat): Items {
    map x | x in items && cfg.owner(x) == q :: items[x]
  }

  datatype State = State(
    items: Items,                       // the entries of all ranks
    caches: seq<Cache>,                 // the parent cache of each rank
    msgs: seq<Msg>,                     // the messages in flight
    compressed: seq<bool>,              // m_is_compressed of each rank
    unions: seq<(Item, Item)>,          // the unions issued so far
    calls: multiset<(Item, Item)>,      // the async_union_and_execute calls among them
    ranTrue: multiset<(Item, Item)>,    // callbacks run with true
    ranFalse: multiset<(Item, Item)>,   // callbacks run with false
    plainLinks: nat)                    // links made by async_union

  datatype Label =
    | Union(rank: nat, a: Item, b: Item, execute: bool)
    | Deliver(index: nat)
    | FindAll(asked: set<Item>)
    | Compress

  function Init(cfg: Config): State {
    State(map[], seq(cfg.ranks, _ => seq(cfg.cacheSize, _ => Entry(false, 0, 0, 0))), [],
          seq(cfg.ranks, _ => true), [], multiset{}, multiset{}, multiset{}, 0)
  }

  ghost predicate Flat(items: Items)
    requires IsForest(items)
  {
    forall x :: x in items ==> items[x].parent == Root(items, x)
  }

  predicate AllCompressed(s: State) {
    forall q :: 0 <= q < |s.compressed| ==> s.compressed[q]
  }

  ghost predicate Inv(cfg: Config, s: State) {
    && cfg.Valid()
    && IsForest(s.items)
    && |s.caches| == |s.compressed| == cfg.ranks
    && (forall q :: 0 <= q < cfg.ranks ==> CacheOk(s.items, s.caches[q]))
    && MsgsOk(s.items, s.msgs)
    && (AllCompressed(s) ==> s.msgs == [] && Flat(s.items))
  }

  // ----- the steps -----

  /** The first message of `async_union` and `async_union_and_execute`. */
  ghost function FirstWalk(cfg: Config, s: State, q: nat, a: Item, b: Item, call: Call): Msg
    requires Inv(cfg, s) && q < cfg.ranks
  {
    var (myParent, myRank) := WalkCache(cfg.hash, s.items, s.caches[q], a, -1);
    var (otherParent, otherRank) := WalkCache(cfg.hash, s.items, s.caches[q], b, -1);
    if myRank <= otherRank then
      Walk(myParent, a, otherParent, b, otherRank, call)
    else
      Walk(otherParent, b, myParent, a, myRank, call)
  }

  ghost function StartUnion(cfg: Config, s: State, q: nat, a: Item, b: Item, execute: bool): State
    requires Inv(cfg, s) && q < cfg.ranks
  {
    var call := if execute then Execute(a, b) else Plain;
    s.(msgs := s.msgs + [FirstWalk(cfg, s, q, a, b, call)],
       compressed := s.compressed[q := false],
       unions := s.unions + [(a, b)],
       calls := if execute then s.calls + multiset{(a, b)} else s.calls)
  }

  /** `async_visit` creates the entry of an item on its first visit. */
  function Visit(items: Items, x: Item): Items {
    if x in items then items else items[x := Data(x, 0, 0)]
  }

  /** The callback of a walk, if it has one and the walk ended. */
  function Callback(m: Msg, v: Verdict, wanted: Verdict): multiset<(Item, Item)> {
    if m.Walk? && m.call.Execute? && v == wanted then multiset{(m.call.a, m.call.b)} else multiset{}
  }

  ghost function Outcomes(cfg: Config, s: State, i: nat): Outcome
    requires Inv(cfg, s) && i < |s.msgs|
  {
    var m := s.msgs[i];
    VisitKeeps(cfg, s, m);
    Handle(cfg.hash, Visit(s.items, m.dest), s.caches[cfg.owner(m.dest)], m)
  }

  ghost function DeliverMsg(cfg: Config, s: State, i: nat): State
    requires Inv(cfg, s) && i < |s.msgs|
  {
    var m := s.msgs[i];
    var q := cfg.owner(m.dest);
    var o := Outcomes(cfg, s, i);
    s.(items := Visit(s.items, m.dest)[m.dest := o.data],
       caches := s.caches[q := o.cache],
       msgs := Without(s.msgs, i) + o.out,
       ranTrue := s.ranTrue + Callback(m, o.verdict, Linked),
       ranFalse := s.ranFalse + Callback(m, o.verdict, Same),
       plainLinks := s.plainLinks + if m.Walk? && m.call.Plain? && o.verdict == Linked then 1 else 0)
  }

  /** The effect of `all_find` for items that have entries: they point at their
      representatives.  The protocol that achieves it, and what happens to an item without an
      entry, is the subject of module `FindProtocol`. */
  ghost function Shortened(items: Items, asked: set<Item>): Items
    requires IsForest(items)
  {
    map x | x in items :: if x in asked then items[x].(parent := Root(items, x)) else items[x]
  }

  /** The effect of `all_compress` on the entries; the query protocol that achieves it is
      the subject of module `CompressProtocol`. */
  ghost function Flattened(items: Items): Items
    requires IsForest(items)
  {
    Shortened(items, items.Keys)
  }

  /** `all_compress` starts with a barrier, so it waits for all messages; it returns early
      when no rank has issued a union since the last call. */
  ghost function CompressAll(s: State): State
    requires IsForest(s.items)
  {
    if s.msgs != [] || AllCompressed(s) then s
    else s.(items := Flattened(s.items), compressed := seq(|s.compressed|, _ => true))
  }

  /** `all_find` starts with a barrier too. */
  ghost function FindReps(s: State, asked: set<Item>): State
    requires IsForest(s.items)
  {
    if s.msgs != [] || !(asked <= s.items.Keys) then s else s.(items := Shortened(s.items, asked))
  }

  ghost function Next(cfg: Config, s: State, l: Label): State
    requires Inv(cfg, s)
  {
    match l
    case Union(q, a, b, execute) => if q < cfg.ranks then StartUnion(cfg, s, q, a, b, execute) else s
    case Deliver(i) => if i < |s.msgs| then DeliverMsg(cfg, s, i) else s
    case FindAll(asked) => FindReps(s, asked)
    case Compress => CompressAll(s)
  }

  /** The state after a run; a label that does not apply is a stutter. */
  ghost function Run(cfg: Config, labels: seq<Label>): (s: State)
    requires cfg.Valid()
    ensures Inv(cfg, s)
  {
    if labels == [] then
      Init(cfg)
    else
      var s := Run(cfg, labels[..|labels| - 1]);
      NextKeepsInv(cfg, s, labels[|labels| - 1]);
      Next(cfg, s, labels[|labels| - 1])
  }

  // ----- the invariant -----

  lemma {:induction false} VisitEvolves(items: Items, x: Item)
    requires IsForest(items)
    ensures Evolves(items, Visit(items, x))
    ensures forall y :: Look(Visit(items, x), y) == Look(items, y)
    ensures forall y :: Root(Visit(items, x), y) == Root(items, y)
  {
    if x !in items {
      Create(items, x);
    }
    SameRootsEvolves(items, Visit(items, x));
  }

  lemma {:induction false} VisitKeeps(cfg: Config, s: State, m: Msg)
    requires Inv(cfg, s) && m in s.msgs
    ensures CanHandle(Visit(s.items, m.dest), s.caches[cfg.owner(m.dest)], m)
  {
    VisitEvolves(s.items, m.dest);
    CacheStable(s.items, Visit(s.items, m.dest), s.caches[cfg.owner(m.dest)]);
    MsgStable(s.items, Visit(s.items, m.dest), m);
  }

  lemma {:induction false} EvolvesTransitive(a: Items, b: Items, c: Items)
    requires Evolves(a, b) && Evolves(b, c)
    ensures Evolves(a, c)
  {
    forall x ensures Merges(a, c, x) {
      assert Merges(a, b, x) && Merges(b, c, x) && Merges(b, c, Root(a, x));
    }
    forall x ensures Look(a, x).rank <= Look(c, x).rank {
      assert Look(a, x).rank <= Look(b, x).rank <= Look(c, x).rank;
    }
  }

  lemma {:induction false} DeliverEvolves(cfg: Config, s: State, i: nat)
    requires Inv(cfg, s) && i < |s.msgs|
    ensures var s' := DeliverMsg(cfg, s, i); var m := s.msgs[i]; var q := cfg.owner(m.dest);
      && Evolves(s.items, s'.items)
      && CacheOk(s'.items, s'.caches[q])
      && MsgsOk(s'.items, Outcomes(cfg, s, i).out)
  {
    var m := s.msgs[i];
    VisitKeeps(cfg, s, m);
    VisitEvolves(s.items, m.dest);
    HandleKeeps(cfg.hash, Visit(s.items, m.dest), s.caches[cfg.owner(m.dest)], m);
    EvolvesTransitive(s.items, Visit(s.items, m.dest), DeliverMsg(cfg, s, i).items);
  }

  lemma {:induction false} ShortenedForest(items: Items, asked: set<Item>)
    requires IsForest(items)
    ensures var items' := Shortened(items, asked);
      && IsForest(items') && Evolves(items, items')
      && (forall x :: Look(items', x).rank == Look(items, x).rank)
      && (forall x :: Root(items', x) == Root(items, x))
      && (forall x :: IsRoot(items', x) <==> IsRoot(items, x))
  {
    var items' := Shortened(items, asked);
    forall x ensures Grounded(items', x) {
      assert Grounded(items, x);
    }
    forall x ensures IsRoot(items', x) <==> IsRoot(items, x) {
      assert Grounded(items, x);
    }
    forall x | x in items' ensures Root(items, items'[x].parent) == Root(items, x) {
    }
    SameRoots(items, items');
    SameRootsEvolves(items, items');
  }

  lemma {:induction false} FlattenedForest(items: Items)
    requires IsForest(items)
    ensures IsForest(Flattened(items)) && Evolves(items, Flattened(items)) && Flat(Flattened(items))
    ensures forall x :: Root(Flattened(items), x) == Root(items, x)
    ensures forall x :: IsRoot(Flattened(items), x) <==> IsRoot(items, x)
  {
    ShortenedForest(items, items.Keys);
  }

  /** `all_find` and `all_compress` move parents to representatives and do nothing else. */
  lemma {:induction false} NextShortens(cfg: Config, s: State, l: Label)
    requires Inv(cfg, s) && (l.FindAll? || l.Compress?)
    ensures var s' := Next(cfg, s, l);
      && s' == s.(items := s'.items, compressed := s'.compressed)
      && s'.items.Keys == s.items.Keys && Evolves(s.items, s'.items)
      && (forall x :: Look(s'.items, x).rank == Look(s.items, x).rank)
      && (forall x :: Root(s'.items, x) == Root(s.items, x))
      && (forall x :: IsRoot(s'.items, x) <==> IsRoot(s.items, x))
      && (s'.items == s.items || s.msgs == [])
      && |s'.compressed| == |s.compressed|
      && (AllCompressed(s') ==> s.msgs == [] && Flat(s'.items))
  {
    var asked := if l.FindAll? then l.asked else s.items.Keys;
    ShortenedForest(s.items, asked);
    SameRootsEvolves(s.items, s.items);
  }

  lemma {:induction false} NextKeepsInv(cfg: Config, s: State, l: Label)
    requires Inv(cfg, s)
    ensures Inv(cfg, Next(cfg, s, l))
  {
    match l
    case Union(q, a, b, execute) =>
      if q < cfg.ranks {
        var s' := Next(cfg, s, l);
        var w := FirstWalk(cfg, s, q, a, b, if execute then Execute(a, b) else Plain);
        assert !s'.compressed[q];
        assert s'.msgs == s.msgs + [w] && MsgOk(s.items, w);
      }
    case Deliver(i) =>
      if i < |s.msgs| {
        DeliverKeepsInv(cfg, s, i);
      }
    case _ =>
      var s' := Next(cfg, s, l);
      NextShortens(cfg, s, l);
      forall q | 0 <= q < cfg.ranks ensures CacheOk(s'.items, s'.caches[q]) {
        CacheStable(s.items, s'.items, s.caches[q]);
      }
  }

  /** The first walk is sent to where the cache leads from the end that may be lower. */
  lemma {:induction false} FirstWalkIsLower(cfg: Config, s: State, q: nat, a: Item, b: Item, call: Call)
    requires Inv(cfg, s) && q < cfg.ranks
    ensures var w := FirstWalk(cfg, s, q, a, b, call);
      && w.Walk? && w.call == call
      && ((w.child == a && w.otherItem == b) || (w.child == b && w.otherItem == a))
      && (var (p, e) := WalkCache(cfg.hash, s.items, s.caches[q], w.child, -1);
          w.dest == p && e <= w.otherRank)
      && WalkCache(cfg.hash, s.items, s.caches[q], w.otherItem, -1) == (w.otherParent, w.otherRank)
  {
  }

  lemma {:induction false} DeliverKeepsInv(cfg: Config, s: State, i: nat)
    requires Inv(cfg, s) && i < |s.msgs|
    ensures Inv(cfg, DeliverMsg(cfg, s, i))
  {
    var s' := DeliverMsg(cfg, s, i);
    DeliverEvolves(cfg, s, i);
    forall q | 0 <= q < cfg.ranks ensures CacheOk(s'.items, s'.caches[q]) {
      if q != cfg.owner(s.msgs[i].dest) {
        CacheStable(s.items, s'.items, s.caches[q]);
      }
    }
    MsgsStable(s.items, s'.items, s.msgs);
    assert !AllCompressed(s) && s'.compressed == s.compressed;
  }

  // ----- first results -----

  /** The item reached by following `n` parents. */
  function Climb(items: Items, x: Item, n: nat): Item
    decreases n
  {
    if n == 0 then x else Climb(items, Look(items, x).parent, n - 1)
  }

  /** In every reachable state the parent pointers form a forest: every parent exists, and
      following parents from an item that is not a root never leads back to it. */
  lemma {:induction false} ParentsFormForest(cfg: Config, labels: seq<Label>, x: Item, n: nat)
    requires cfg.Valid() && n > 0
    ensures var items := Run(cfg, labels).items;
      && (x in items ==> items[x].parent in items)
      && (!IsRoot(items, x) ==> Climb(items, x, n) != x && Below(items, x, Climb(items, x, n)))
  {
    var items := Run(cfg, labels).items;
    assert Grounded(items, x);
    if !IsRoot(items, x) {
      ClimbRises(items, x, n);
    }
  }

  lemma {:induction false} ClimbRises(items: Items, x: Item, n: nat)
    requires IsForest(items) && n > 0 && !IsRoot(items, x)
    ensures Below(items, x, Climb(items, x, n))
    decreases n
  {
    var p := Look(items, x).parent;
    assert Grounded(items, x);
    if n > 1 {
      if IsRoot(items, p) {
        ClimbAtRoot(items, p, n - 1);
      } else {
        ClimbRises(items, p, n - 1);
      }
    }
  }

  lemma {:induction false} ClimbAtRoot(items: Items, x: Item, n: nat)
    requires IsRoot(items, x)
    ensures Climb(items, x, n) == x
  {
    if n > 0 {
      ClimbAtRoot(items, x, n - 1);
    }
  }

  /** When `all_compress` returns early the forest is flat already, and when it does not the
      result is flat with the same representatives. */
  lemma CompressFlattens(cfg: Config, labels: seq<Label>)
    requires cfg.Valid() && Run(cfg, labels).msgs == []
    ensures var s := Run(cfg, labels); var s' := Next(cfg, s, Compress);
      && IsForest(s'.items) && Flat(s'.items) && AllCompressed(s')
      && (AllCompressed(s) ==> s' == s)
      && s'.items.Keys == s.items.Keys
      && forall x :: Root(s'.items, x) == Root(s.items, x)
  {
    FlattenedForest(Run(cfg, labels).items);
  }
}
