/** The disjoint set computes the equivalence generated by the issued unions.

    The forest together with the walks in flight generates, in every state, exactly the
    same equivalence as the unions issued so far.  An equivalence is handled through its
    labelings: functions that take the same value at both ends of every generating pair. */
module UnionConnectivity {
  import opened Forest
  import opened UnionProtocol
  import opened UnionRun
  import opened Sequences

  // ----- what the unions ask for -----

  /** `path` leads from `x` to `y`, each step along one of the pairs in either direction. */
  ghost predicate IsPath(pairs: seq<(Item, Item)>, x: Item, path: seq<Item>, y: Item)
    decreases path
  {
    if path == [] then x == y
    else ((x, path[0]) in pairs || (path[0], x) in pairs) && IsPath(pairs, path[0], path[1..], y)
  }

  ghost predicate Connected(pairs: seq<(Item, Item)>, x: Item, y: Item) {
    exists path :: IsPath(pairs, x, path, y)
  }

  ghost predicate Respects(f: Item -> Item, pairs: seq<(Item, Item)>) {
    forall u :: u in pairs ==> f(u.0) == f(u.1)
  }

  lemma {:induction false} PathRespected(f: Item -> Item, pairs: seq<(Item, Item)>, x: Item, path: seq<Item>, y: Item)
    requires Respects(f, pairs) && IsPath(pairs, x, path, y)
    ensures f(x) == f(y)
    decreases path
  {
    if path != [] {
      PathRespected(f, pairs, path[0], path[1..], y);
    }
  }

  lemma {:induction false} PathExtends(pairs: seq<(Item, Item)>, x: Item, path: seq<Item>, y: Item, z: Item)
    requires IsPath(pairs, x, path, y) && ((y, z) in pairs || (z, y) in pairs)
    ensures IsPath(pairs, x, path + [z], z)
    decreases path
  {
    if path == [] {
      assert IsPath(pairs, z, [], z);
      assert (path + [z])[1..] == [];
    } else {
      PathExtends(pairs, path[0], path[1..], y, z);
      assert (path + [z])[1..] == path[1..] + [z];
    }
  }

  /** The labeling that separates what `x` is connected to from the rest. */
  ghost function ClassOf(pairs: seq<(Item, Item)>, x: Item): Item -> Item {
    y => if Connected(pairs, x, y) then 1 else 0
  }

  lemma {:induction false} ClassOfRespects(pairs: seq<(Item, Item)>, x: Item)
    ensures Respects(ClassOf(pairs, x), pairs)
  {
    forall u | u in pairs ensures Connected(pairs, x, u.0) == Connected(pairs, x, u.1) {
      assert u == (u.0, u.1);
      if Connected(pairs, x, u.0) {
        var path :| IsPath(pairs, x, path, u.0);
        PathExtends(pairs, x, path, u.0, u.1);
      }
      if Connected(pairs, x, u.1) {
        var path :| IsPath(pairs, x, path, u.1);
        PathExtends(pairs, x, path, u.1, u.0);
      }
    }
  }

  // ----- what the data structure represents -----

  ghost predicate RespectsRoots(f: Item -> Item, items: Items)
    requires IsForest(items)
  {
    forall x :: SameAsRoot(f, items, x)
  }

  ghost predicate SameAsRoot(f: Item -> Item, items: Items, x: Item)
    requires IsForest(items)
  {
    f(x) == f(Root(items, x))
  }

  predicate WalkJoins(f: Item -> Item, m: Msg) {
    m.Walk? ==> f(m.dest) == f(m.otherParent)
  }

  ghost predicate RespectsWalks(f: Item -> Item, msgs: seq<Msg>) {
    forall m :: m in msgs ==> WalkJoins(f, m)
  }

  ghost predicate Represents(f: Item -> Item, s: State)
    requires IsForest(s.items)
  {
    RespectsRoots(f, s.items) && RespectsWalks(f, s.msgs)
  }

  /** What a handler does to the represented equivalence: nothing.  The walk it consumes is
      replaced by a walk between the same trees, by a link of the two, or it is redundant. */
  lemma {:induction false} HandlePreserves(f: Item -> Item, hash: Item -> nat, items: Items, cache: Cache, m: Msg)
    requires CanHandle(items, cache, m)
    ensures var o := Handle(hash, items, cache, m); var items' := items[m.dest := o.data];
      && IsForest(items')
      && (RespectsRoots(f, items') && RespectsWalks(f, o.out) <==> RespectsRoots(f, items) && WalkJoins(f, m))
  {
    var o := Handle(hash, items, cache, m);
    var items' := items[m.dest := o.data];
    HandleKeeps(hash, items, cache, m);
    if m.Walk? {
      WalkEffect(hash, items, cache, m);
      Ends(hash, items, cache, m);
      if o.verdict == Linked {
        LinkPreserves(f, hash, items, cache, m);
      } else {
        assert items' == items;
        var (p, _) := MyEnd(hash, items, cache, m);
        var (q, _) := OtherEnd(hash, items, cache, m);
        if RespectsRoots(f, items) {
          assert SameAsRoot(f, items, m.dest) && SameAsRoot(f, items, p);
          assert SameAsRoot(f, items, m.otherParent) && SameAsRoot(f, items, q);
          if o.verdict == Forwarded {
            assert o.out[|o.out| - 1] in o.out;
          }
        }
      }
    } else {
      OtherEffect(hash, items, cache, m);
      if RespectsRoots(f, items) {
        forall x ensures SameAsRoot(f, items', x) { assert SameAsRoot(f, items, x); }
      }
      if RespectsRoots(f, items') {
        forall x ensures SameAsRoot(f, items, x) { assert SameAsRoot(f, items', x); }
      }
    }
  }

  lemma {:induction false} LinkPreserves(f: Item -> Item, hash: Item -> nat, items: Items, cache: Cache, m: Msg)
    requires CanHandle(items, cache, m) && m.Walk?
    requires HandleWalk(hash, items, cache, m).verdict == Linked
    ensures var o := HandleWalk(hash, items, cache, m); var items' := items[m.dest := o.data];
      && IsForest(items')
      && RespectsWalks(f, o.out)
      && (RespectsRoots(f, items') <==> RespectsRoots(f, items) && WalkJoins(f, m))
  {
    var o := HandleWalk(hash, items, cache, m);
    var items' := items[m.dest := o.data];
    WalkEffect(hash, items, cache, m);
    Attach(items, m.dest, o.data);
    var other := Root(items, m.otherParent);
    if RespectsRoots(f, items') {
      assert SameAsRoot(f, items', m.dest) && SameAsRoot(f, items', m.otherParent);
      forall x ensures SameAsRoot(f, items, x) { assert SameAsRoot(f, items', x); }
    }
    if RespectsRoots(f, items) && WalkJoins(f, m) {
      assert SameAsRoot(f, items, m.otherParent);
      forall x ensures SameAsRoot(f, items', x) { assert SameAsRoot(f, items, x); }
    }
  }

  lemma {:induction false} WithoutRespects(f: Item -> Item, msgs: seq<Msg>, i: nat, out: seq<Msg>)
    requires i < |msgs|
    ensures RespectsWalks(f, msgs) <==> RespectsWalks(f, Without(msgs, i)) && WalkJoins(f, msgs[i])
    ensures RespectsWalks(f, Without(msgs, i) + out) <==> RespectsWalks(f, Without(msgs, i)) && RespectsWalks(f, out)
  {
    forall m | m in msgs ensures m in Without(msgs, i) || m == msgs[i] {
      var j :| 0 <= j < |msgs| && msgs[j] == m;
      if j < i { assert Without(msgs, i)[j] == m; }
      if j > i { assert Without(msgs, i)[j - 1] == m; }
    }
    assert msgs[i] in msgs;
    forall m | m in Without(msgs, i) + out ensures m in Without(msgs, i) || m in out {
    }
    forall m | m in Without(msgs, i) ensures m in Without(msgs, i) + out && m in msgs {
    }
    forall m | m in out ensures m in Without(msgs, i) + out {
    }
  }

  /** One step: a new union adds its pair to the represented equivalence, every other step
      leaves it as it is. */
  lemma {:induction false} NextRepresents(f: Item -> Item, cfg: Config, s: State, l: Label)
    requires Inv(cfg, s)
    ensures var s' := Next(cfg, s, l);
      && IsForest(s'.items)
      && (Represents(f, s') <==>
            Represents(f, s) && (l.Union? && l.rank < cfg.ranks ==> f(l.a) == f(l.b)))
  {
    NextKeepsInv(cfg, s, l);
    match l
    case Union(q, a, b, execute) =>
      if q < cfg.ranks {
        var call := if execute then Execute(a, b) else Plain;
        var w := FirstWalk(cfg, s, q, a, b, call);
        var (p, _) := WalkCache(cfg.hash, s.items, s.caches[q], a, -1);
        var (r, _) := WalkCache(cfg.hash, s.items, s.caches[q], b, -1);
        assert RespectsWalks(f, s.msgs + [w]) <==> RespectsWalks(f, s.msgs) && WalkJoins(f, w) by {
          assert (s.msgs + [w])[|s.msgs|] == w;
          forall m | m in s.msgs ensures m in s.msgs + [w] {
          }
        }
        if RespectsRoots(f, s.items) {
          assert SameAsRoot(f, s.items, a) && SameAsRoot(f, s.items, p);
          assert SameAsRoot(f, s.items, b) && SameAsRoot(f, s.items, r);
          assert WalkJoins(f, w) <==> f(a) == f(b);
        }
      }
    case Deliver(i) =>
      if i < |s.msgs| {
        var m := s.msgs[i];
        var items := Visit(s.items, m.dest);
        VisitEvolves(s.items, m.dest);
        VisitKeeps(cfg, s, m);
        HandlePreserves(f, cfg.hash, items, s.caches[cfg.owner(m.dest)], m);
        WithoutRespects(f, s.msgs, i, Outcomes(cfg, s, i).out);
        RespectsSameRoots(f, s.items, items);
      }
    case _ =>
      NextShortens(cfg, s, l);
      RespectsSameRoots(f, s.items, Next(cfg, s, l).items);
  }

  lemma {:induction false} RespectsSameRoots(f: Item -> Item, items: Items, items': Items)
    requires IsForest(items) && IsForest(items')
    requires forall x :: Root(items', x) == Root(items, x)
    ensures RespectsRoots(f, items) <==> RespectsRoots(f, items')
  {
    if RespectsRoots(f, items) {
      forall x ensures SameAsRoot(f, items', x) { assert SameAsRoot(f, items, x); }
    }
    if RespectsRoots(f, items') {
      forall x ensures SameAsRoot(f, items, x) { assert SameAsRoot(f, items', x); }
    }
  }

  /** The main invariant: forest and pending walks generate the equivalence of the unions. */
  lemma {:induction false} RunRepresents(f: Item -> Item, cfg: Config, labels: seq<Label>)
    requires cfg.Valid()
    ensures Represents(f, Run(cfg, labels)) <==> Respects(f, Run(cfg, labels).unions)
  {
    if labels == [] {
      var s := Init(cfg);
      forall x ensures SameAsRoot(f, s.items, x) {
      }
    } else {
      hide Represents;
      hide DeliverMsg;
      hide Inv;
      var before := labels[..|labels| - 1];
      var l := labels[|labels| - 1];
      var s := Run(cfg, before);
      RunRepresents(f, cfg, before);
      NextRepresents(f, cfg, s, l);
      if l.Union? && l.rank < cfg.ranks {
        RespectsMore(f, s.unions, l.a, l.b);
      }
    }
  }

  lemma {:induction false} RespectsMore(f: Item -> Item, unions: seq<(Item, Item)>, a: Item, b: Item)
    ensures Respects(f, unions + [(a, b)]) <==> Respects(f, unions) && f(a) == f(b)
  {
    var unions' := unions + [(a, b)];
    assert unions'[|unions|] == (a, b);
    forall u | u in unions ensures u in unions' {
    }
  }

  // ----- the theorems -----

  ghost predicate NoWalks(msgs: seq<Msg>) {
    forall m :: m in msgs ==> !m.Walk?
  }

  /** No union is ever invented: items with one representative are connected by the unions
      issued so far, whatever is in flight. */
  lemma {:induction false} SharedRootIsConnected(cfg: Config, labels: seq<Label>, x: Item, y: Item)
    requires cfg.Valid()
    requires Root(Run(cfg, labels).items, x) == Root(Run(cfg, labels).items, y)
    ensures Connected(Run(cfg, labels).unions, x, y)
  {
    var s := Run(cfg, labels);
    var f := ClassOf(s.unions, x);
    ClassOfRespects(s.unions, x);
    RunRepresents(f, cfg, labels);
    assert IsPath(s.unions, x, [], x);
    assert SameAsRoot(f, s.items, x) && SameAsRoot(f, s.items, y);
  }

  /** No union is ever lost: once no walk is in flight, items have one representative exactly
      when the unions connect them. */
  lemma {:induction false} SharedRootIffConnected(cfg: Config, labels: seq<Label>, x: Item, y: Item)
    requires cfg.Valid()
    requires NoWalks(Run(cfg, labels).msgs)
    ensures Root(Run(cfg, labels).items, x) == Root(Run(cfg, labels).items, y)
       <==> Connected(Run(cfg, labels).unions, x, y)
  {
    var s := Run(cfg, labels);
    if Connected(s.unions, x, y) {
      var f := (z: Item) => Root(s.items, z);
      forall z ensures SameAsRoot(f, s.items, z) {
      }
      RunRepresents(f, cfg, labels);
      var path :| IsPath(s.unions, x, path, y);
      PathRespected(f, s.unions, x, path, y);
    }
    if Root(s.items, x) == Root(s.items, y) {
      SharedRootIsConnected(cfg, labels, x, y);
    }
  }
}
