/** The parent forest shared by the ranks of a disjoint set, and how it may evolve.

    A rank only ever holds the entries of the items it owns; this module looks at
    the union of all of them.  An item that no message has visited yet behaves like
    a root of rank 0, which is also the entry its first visit creates. */
module Forest {
  type Item = int

  /** `data_t`: the parent of an item, its rank, and a lower bound of its parent's rank. */
  datatype Data = Data(parent: Item, rank: nat, est: nat) {
    /** The checked form of `set_parent`: a parent is never replaced on a worse estimate. */
    function SetParent(p: Item, e: nat): Data {
      if e >= est then Data(p, rank, e) else this
    }
  }

  type Items = map<Item, Data>

  function Look(items: Items, x: Item): Data {
    if x in items then items[x] else Data(x, 0, 0)
  }

  predicate IsRoot(items: Items, x: Item) {
    Look(items, x).parent == x
  }

  /** Items are ordered by rank first; ties are broken by the item itself. */
  predicate Below(items: Items, x: Item, y: Item) {
    var rx, ry := Look(items, x).rank, Look(items, y).rank;
    rx < ry || (rx == ry && x < y)
  }

  /** What every stored entry satisfies. */
  ghost predicate Grounded(items: Items, x: Item) {
    var d := Look(items, x);
    if d.parent == x then
      d.est == d.rank
    else
      d.parent in items && Below(items, x, d.parent) && d.est <= items[d.parent].rank
  }

  ghost predicate IsForest(items: Items) {
    forall x :: Grounded(items, x)
  }

  function Above(items: Items, x: Item): (r: set<Item>) {
    set y | y in items && Below(items, x, y)
  }

  lemma {:induction false} AboveShrinks(items: Items, x: Item, y: Item)
    requires y in items && Below(items, x, y)
    ensures Above(items, y) < Above(items, x)
  {
    assert y in Above(items, x) && y !in Above(items, y);
  }

  /** The representative found by following parents. */
  ghost function Root(items: Items, x: Item): (r: Item)
    requires IsForest(items)
    ensures IsRoot(items, r)
    ensures r == x || (x in items && r in items && Below(items, x, r))
    decreases Above(items, x)
  {
    var p := Look(items, x).parent;
    assert Grounded(items, x);
    if p == x then x else AboveShrinks(items, x, p); Root(items, p)
  }

  /** `g` fixes the roots and takes the same value at an item and at its parent. */
  ghost predicate Follows(items: Items, g: Item -> Item, x: Item) {
    g(x) == if IsRoot(items, x) then x else g(Look(items, x).parent)
  }

  /** Any function that does so everywhere is `Root`. */
  lemma {:induction false} RootUnique(items: Items, g: Item -> Item, x: Item)
    requires IsForest(items)
    requires forall y :: Follows(items, g, y)
    ensures g(x) == Root(items, x)
    decreases Above(items, x)
  {
    var p := Look(items, x).parent;
    assert Follows(items, g, x) && Grounded(items, x);
    if p != x {
      AboveShrinks(items, x, p);
      RootUnique(items, g, p);
    }
  }

  /** Two forests agree on every representative when the parents of one stay inside the
      trees of the other and the roots are the same. */
  lemma {:induction false} SameRoots(items: Items, items': Items)
    requires IsForest(items) && IsForest(items')
    requires forall x :: IsRoot(items, x) <==> IsRoot(items', x)
    requires forall x :: x in items' ==> Root(items, items'[x].parent) == Root(items, x)
    ensures forall x :: Root(items', x) == Root(items, x)
  {
    var g := (y: Item) => Root(items, y);
    forall y ensures Follows(items', g, y) {
    }
    forall x ensures Root(items', x) == Root(items, x) {
      RootUnique(items', g, x);
    }
  }

  // ----- how handlers change the forest -----

  /** Creating the entry of an item changes no representative. */
  lemma {:induction false} Create(items: Items, x: Item)
    requires IsForest(items) && x !in items
    ensures IsForest(items[x := Data(x, 0, 0)])
    ensures forall y :: Look(items[x := Data(x, 0, 0)], y) == Look(items, y)
    ensures forall y :: Root(items[x := Data(x, 0, 0)], y) == Root(items, y)
  {
    var items' := items[x := Data(x, 0, 0)];
    forall y ensures Grounded(items', y) {
      assert Grounded(items, y);
    }
    SameRoots(items, items');
  }

  /** A non-root moved to another item above it in its own tree. */
  lemma {:induction false} Reparent(items: Items, x: Item, d: Data)
    requires IsForest(items) && x in items && !IsRoot(items, x)
    requires d.rank == items[x].rank && d.parent in items && Below(items, x, d.parent)
    requires d.est <= items[d.parent].rank
    requires Root(items, d.parent) == Root(items, x)
    ensures IsForest(items[x := d])
    ensures forall y :: Root(items[x := d], y) == Root(items, y)
  {
    var items' := items[x := d];
    forall y ensures Grounded(items', y) {
      assert Grounded(items, y);
    }
    SameRoots(items, items');
  }

  /** A root attached below an item that is above it: its whole tree moves, and the
      two trees were different. */
  lemma {:induction false} Attach(items: Items, x: Item, d: Data)
    requires IsForest(items) && x in items && IsRoot(items, x)
    requires d.rank == items[x].rank && d.parent in items && Below(items, x, d.parent)
    requires d.est <= items[d.parent].rank
    ensures IsForest(items[x := d])
    ensures Root(items, d.parent) != x
    ensures forall y :: Root(items[x := d], y) == if Root(items, y) == x then Root(items, d.parent) else Root(items, y)
  {
    var items' := items[x := d];
    forall y ensures Grounded(items', y) {
      assert Grounded(items, y);
    }
    var g := (y: Item) => if Root(items, y) == x then Root(items, d.parent) else Root(items, y);
    assert Root(items, d.parent) == d.parent || Below(items, d.parent, Root(items, d.parent));
    forall y ensures Follows(items', g, y) {
    }
    forall y ensures Root(items', y) == g(y) {
      RootUnique(items', g, y);
    }
  }

  /** A root whose rank grows. */
  lemma {:induction false} Promote(items: Items, x: Item, d: Data)
    requires IsForest(items) && x in items && IsRoot(items, x)
    requires d.parent == x && d.rank == d.est > items[x].rank
    ensures IsForest(items[x := d])
    ensures forall y :: Root(items[x := d], y) == Root(items, y)
  {
    var items' := items[x := d];
    forall y ensures Grounded(items', y) {
      assert Grounded(items, y);
    }
    SameRoots(items, items');
  }

  // ----- facts that survive every change -----

  /** What a rank may have been told about `x`: that `p` lies above it in the same tree,
      and that the rank of `p` is at least `e`.  `p == x` claims nothing about the parent of
      `x`, and `e == -1` nothing about a rank, not even that `p` has been visited. */
  ghost predicate Fact(items: Items, x: Item, p: Item, e: int)
    requires IsForest(items)
  {
    && e >= -1
    && (e >= 0 ==> p in items && items[p].rank >= e)
    && (p != x ==>
          && x in items && p in items
          && !IsRoot(items, x) && Below(items, x, p)
          && Root(items, x) == Root(items, p))
  }

  /** Ranks only grow, only at roots, and trees only merge. */
  ghost predicate Merges(items: Items, items': Items, x: Item)
    requires IsForest(items) && IsForest(items')
  {
    Root(items', x) == Root(items', Root(items, x))
  }

  ghost predicate Evolves(items: Items, items': Items) {
    && IsForest(items) && IsForest(items')
    && items.Keys <= items'.Keys
    && (forall x :: Look(items, x).rank <= Look(items', x).rank)
    && (forall x :: !IsRoot(items, x) ==> !IsRoot(items', x) && Look(items, x).rank == Look(items', x).rank)
    && (forall x :: Merges(items, items', x))
  }

  lemma {:induction false} FactStable(items: Items, items': Items, x: Item, p: Item, e: int)
    requires Evolves(items, items') && Fact(items, x, p, e)
    ensures Fact(items', x, p, e)
  {
    if p != x {
      assert Look(items, p).rank <= Look(items', p).rank;
      assert Merges(items, items', x) && Merges(items, items', p);
    }
    if e >= 0 {
      assert Look(items, p).rank <= Look(items', p).rank;
    }
  }

  lemma {:induction false} FactChain(items: Items, x: Item, p: Item, q: Item, e: int, e': int)
    requires IsForest(items) && Fact(items, x, p, e) && Fact(items, p, q, e')
    requires p != x
    ensures Fact(items, x, q, e') && q != x
  {
  }

  lemma {:induction false} FactOfParent(items: Items, x: Item)
    requires IsForest(items) && x in items
    ensures Fact(items, x, items[x].parent, items[x].est)
    ensures Fact(items, x, items[x].parent, items[x].rank)
  {
    assert Grounded(items, x);
  }
}
