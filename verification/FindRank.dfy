/** One rank's part of `all_find` and of `num_sets`: the handlers that update its entries and
    its returned map, the loop that asks, and the loop that counts its roots. */
module FindRank {
  import opened Forest
  import opened FindProtocol
  import opened Sets
  import opened UnionRun
  import opened UnionCallbacks
  import opened UnionConnectivity

  class Finder {
    const rank: nat
    var items: Items                  // m_local_item_map
    var toReturn: map<Item, Item>     // to_return
    var outbox: seq<FindMsg>

    constructor (rank: nat, items: Items)
      ensures this.rank == rank && this.items == items && toReturn == map[] && outbox == []
    {
      this.rank, this.items, toReturn, outbox := rank, items, map[], [];
    }

    /** Ask the owners of `wanted`, one question for each element. */
    method AskAll(wanted: seq<Item>)
      modifies this`outbox
      ensures |outbox| == |old(outbox)| + |wanted| && outbox[..|old(outbox)|] == old(outbox)
      ensures forall i :: 0 <= i < |wanted| ==> outbox[|old(outbox)| + i] == Find(rank, wanted[i], wanted[i])
    {
      for i := 0 to |wanted|
        invariant |outbox| == |old(outbox)| + i && outbox[..|old(outbox)|] == old(outbox)
        invariant forall j :: 0 <= j < i ==> outbox[|old(outbox)| + j] == Find(rank, wanted[j], wanted[j])
      {
        outbox := outbox + [Find(rank, wanted[i], wanted[i])];
      }
    }

    /** `m_local_item_map[x]`. */
    method At(x: Item) returns (d: Data)
      modifies this`items
      ensures items == Fetch(old(items), x) && d == items[x]
    {
      if x !in items {
        items := items[x := Data(BLANK, 0, 0)];
      }
      d := items[x];
    }

    /** `find_rep_functor` and the two lambdas it sends. */
    method Receive(m: FindMsg)
      modifies this`items, this`outbox, this`toReturn
      ensures items == HandledItems(old(items), m)
      ensures toReturn == HandledMap(old(toReturn), m)
      ensures outbox == old(outbox) + if m.Find? then FindSends(m, items[m.at].parent) else []
    {
      match m
      case Find(asker, source, at) =>
        var data := At(at);
        if data.parent == at {
          outbox := outbox + [Adopt(source, data.parent)];
          outbox := outbox + [Reply(asker, source, data.parent)];
        } else {
          outbox := outbox + [Find(asker, source, data.parent)];
        }
      case Adopt(source, root) =>
        var data := At(source);
        items := items[source := data.(parent := root)];
      case Reply(_, source, root) =>
        toReturn := toReturn[source := root];
    }

    /** The count that this rank adds to `num_sets`. */
    method LocalSets() returns (n: nat)
      ensures n == |Roots(items)|
    {
      n := 0;
      var todo := items.Keys;
      ghost var seen: set<Item> := {};
      while todo != {}
        invariant todo <= items.Keys && seen == Roots(items) - todo && n == |seen|
      {
        HasMember(todo);
        var x :| x in todo;
        if x == items[x].parent {
          n := n + 1;
          seen := seen + {x};
        }
        todo := todo - {x};
      }
      assert seen == Roots(items);
    }

    /** The rank that this rank's share contributes to `max_rank`. */
    method LocalMaxRank() returns (localMax: nat)
      ensures forall x :: x in items ==> items[x].rank <= localMax
      ensures localMax == 0 || exists x :: x in items && items[x].rank == localMax
    {
      localMax := 0;
      var todo := items.Keys;
      while todo != {}
        invariant todo <= items.Keys
        invariant forall x :: x in items && x !in todo ==> items[x].rank <= localMax
        invariant localMax == 0 || exists x :: x in items && items[x].rank == localMax
      {
        HasMember(todo);
        var x :| x in todo;
        if localMax < items[x].rank {
          localMax := items[x].rank;
        }
        todo := todo - {x};
      }
    }
  }

  // ----- num_sets -----

  /** The roots that ranks below `p` own. */
  ghost function RootsBelow(cfg: Config, items: Items, p: nat): set<Item> {
    set x | x in Roots(items) && cfg.owner(x) < p
  }

  ghost function SumOfSets(cfg: Config, items: Items, p: nat): nat {
    if p == 0 then 0 else SumOfSets(cfg, items, p - 1) + |Roots(Owned(cfg, items, p - 1))|
  }

  lemma {:induction false} SetsBelow(cfg: Config, items: Items, p: nat)
    ensures SumOfSets(cfg, items, p) == |RootsBelow(cfg, items, p)|
  {
    if p == 0 {
      assert RootsBelow(cfg, items, 0) == {};
    } else {
      SetsBelow(cfg, items, p - 1);
      var mine, before := Roots(Owned(cfg, items, p - 1)), RootsBelow(cfg, items, p - 1);
      forall x ensures x in RootsBelow(cfg, items, p) <==> x in before + mine {
      }
      assert RootsBelow(cfg, items, p) == before + mine && before !! mine;
    }
  }

  /** The items connected to `x` by the unions. */
  ghost function Component(items: Items, unions: seq<(Item, Item)>, x: Item): set<Item> {
    set y | y in items && Connected(unions, x, y)
  }

  ghost function Components(items: Items, unions: seq<(Item, Item)>, xs: set<Item>): set<set<Item>> {
    set x | x in xs :: Component(items, unions, x)
  }

  lemma {:induction false} ComponentsOfRoots(items: Items, unions: seq<(Item, Item)>, roots: set<Item>)
    requires IsForest(items) && roots <= Roots(items)
    requires forall x, y :: Root(items, x) == Root(items, y) <==> Connected(unions, x, y)
    ensures |Components(items, unions, roots)| == |roots|
  {
    if roots == {} {
      assert Components(items, unions, roots) == {};
    } else {
      HasMember(roots);
      var r :| r in roots;
      var rest := roots - {r};
      ComponentsOfRoots(items, unions, rest);
      assert Components(items, unions, roots) == Components(items, unions, rest) + {Component(items, unions, r)};
      forall s | s in rest ensures Component(items, unions, s) != Component(items, unions, r) {
        assert r in Component(items, unions, r) && r !in Component(items, unions, s);
      }
    }
  }

  /** Once a run has come to rest, the counts of all ranks add up to the number of connected
      components that the unions make of the items. */
  lemma {:induction false} NumSets(cfg: Config, labels: seq<Label>)
    requires cfg.Valid() && Run(cfg, labels).msgs == []
    ensures var s := Run(cfg, labels);
      SumOfSets(cfg, s.items, cfg.ranks) == |Components(s.items, s.unions, s.items.Keys)|
  {
    var s := Run(cfg, labels);
    forall x, y ensures Root(s.items, x) == Root(s.items, y) <==> Connected(s.unions, x, y) {
      SharedRootIffConnected(cfg, labels, x, y);
    }
    SetsBelow(cfg, s.items, cfg.ranks);
    assert RootsBelow(cfg, s.items, cfg.ranks) == Roots(s.items);
    ComponentsOfRoots(s.items, s.unions, Roots(s.items));
    forall x | x in s.items
      ensures Component(s.items, s.unions, x) in Components(s.items, s.unions, Roots(s.items))
    {
      var r := Root(s.items, x);
      assert r in Roots(s.items);
      assert Component(s.items, s.unions, x) == Component(s.items, s.unions, r);
    }
    assert Components(s.items, s.unions, s.items.Keys) == Components(s.items, s.unions, Roots(s.items));
  }
}
