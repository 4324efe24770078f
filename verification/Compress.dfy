/** One rank's part of `all_compress`: the maps it fills before the first query and the two
    handlers that update them, proved against the functions of `CompressProtocol`. */
module CompressRank {
  import opened Forest
  import opened CompressProtocol
  import opened Sets

  // ----- preparing, one item after the other -----

  /** The queries after one more item has been looked at. */
  function Asked(queries: map<Item, seq<Item>>, x: Item, p: Item): map<Item, seq<Item>> {
    if p == x then queries else queries[p := (if p in queries then queries[p] else []) + [x]]
  }

  function Except(items: Items, todo: set<Item>): Items {
    map x | x in items && x !in todo :: items[x]
  }

  /** What the prepared queries of a rank say about one item. */
  lemma {:induction false} AskedList(mine: Items, queries: map<Item, seq<Item>>, x: Item, p: Item)
    requires RankPrepared(mine, queries) && x !in mine && p != x
    ensures NoRepeats(Asked(queries, x, p)[p])
    ensures forall y :: y in Asked(queries, x, p)[p] ==> y == x || (p in queries && y in queries[p])
    ensures x in Asked(queries, x, p)[p]
    ensures p in queries ==> forall y :: y in queries[p] ==> y in Asked(queries, x, p)[p]
  {
    var before := if p in queries then queries[p] else [];
    var list := Asked(queries, x, p)[p];
    assert list == before + [x] && list[|before|] == x;
    assert x !in before;
  }

  lemma {:induction false} AskOneMore(mine: Items, queries: map<Item, seq<Item>>, x: Item, d: Data)
    requires RankPrepared(mine, queries) && x !in mine
    ensures RankPrepared(mine[x := d], Asked(queries, x, d.parent))
  {
    var p := d.parent;
    var queries' := Asked(queries, x, p);
    if p != x {
      AskedList(mine, queries, x, p);
    }
    forall q, y | q in queries' && y in queries'[q]
      ensures y in mine[x := d] && mine[x := d][y].parent == q && q != y
    {
      assert y == x || (q in queries && y in queries[q]);
    }
    var mine' := mine[x := d];
    forall y | y in mine' && mine'[y].parent != y
      ensures mine'[y].parent in queries' && y in queries'[mine'[y].parent]
    {
      if y != x {
        assert y in queries[mine[y].parent];
      }
    }
  }

  lemma {:induction false} NotRootsOneMore<T>(items: Items, x: Item, d: Data, v: T)
    requires x !in items
    ensures NotRoots(items[x := d], v) == if d.parent == x then NotRoots(items, v) else NotRoots(items, v)[x := v]
  {
  }

  lemma {:induction false} ExceptOneMore(items: Items, todo: set<Item>, x: Item)
    requires x in todo && x in items
    ensures Except(items, todo - {x}) == Except(items, todo)[x := items[x]] && x !in Except(items, todo)
  {
  }

  /** All items but those in `todo` have been looked at. */
  ghost predicate PreparedBut(items: Items, todo: set<Item>, queries: map<Item, seq<Item>>, found: map<Item, bool>,
                              held: map<Item, seq<nat>>) {
    var seen := Except(items, todo);
    RankPrepared(seen, queries) && found == NotRoots(seen, false) && held == NotRoots<seq<nat>>(seen, [])
  }

  lemma {:induction false} StatusOneMore<T>(items: Items, todo: set<Item>, x: Item, v: T)
    requires x in todo && x in items
    ensures NotRoots(Except(items, todo - {x}), v) ==
      if items[x].parent == x then NotRoots(Except(items, todo), v) else NotRoots(Except(items, todo), v)[x := v]
  {
    ExceptOneMore(items, todo, x);
    NotRootsOneMore(Except(items, todo), x, items[x], v);
  }

  lemma {:induction false} PrepareOneMore(items: Items, todo: set<Item>, queries: map<Item, seq<Item>>,
                                          found: map<Item, bool>, held: map<Item, seq<nat>>, x: Item)
    requires x in todo && todo <= items.Keys && PreparedBut(items, todo, queries, found, held)
    ensures PreparedBut(items, todo - {x}, Asked(queries, x, items[x].parent),
                        if items[x].parent == x then found else found[x := false],
                        if items[x].parent == x then held else held[x := []])
  {
    hide RankPrepared;
    hide NotRoots;
    hide Except;
    hide Asked;
    ExceptOneMore(items, todo, x);
    AskOneMore(Except(items, todo), queries, x, items[x]);
    StatusOneMore(items, todo, x, false);
    StatusOneMore<seq<nat>>(items, todo, x, []);
  }

  lemma {:induction false} AllPrepared(items: Items, queries: map<Item, seq<Item>>, found: map<Item, bool>,
                                       held: map<Item, seq<nat>>)
    requires PreparedBut(items, {}, queries, found, held)
    ensures RankPrepared(items, queries) && found == NotRoots(items, false) && held == NotRoots(items, [])
  {
    assert Except(items, {}) == items;
  }

  // ----- updating, one item after the other -----

  datatype Entries = Entries(items: Items, found: map<Item, bool>, held: map<Item, seq<nat>>,
                             outbox: seq<CompressMsg>) {
    ghost predicate Has(x: Item) {
      x in items && x in found && x in held
    }
  }

  ghost function UpdateOne(t: Entries, x: Item, rep: Item): Entries {
    if !t.Has(x) then t
    else Entries(t.items[x := t.items[x].(parent := rep)], t.found[x := true], t.held[x := []],
                 t.outbox + Sends(t.held[x], x, rep))
  }

  ghost function UpdateEach(t: Entries, list: seq<Item>, rep: Item): Entries {
    if list == [] then t
    else UpdateOne(UpdateEach(t, list[..|list| - 1], rep), list[|list| - 1], rep)
  }

  /** Updating item by item keeps all items, and the last one still waits for its update. */
  lemma {:induction false} UpdateEachHas(t: Entries, list: seq<Item>, rep: Item, x: Item)
    requires t.Has(x)
    ensures UpdateEach(t, list, rep).Has(x)
  {
    if list != [] {
      UpdateEachHas(t, list[..|list| - 1], rep, x);
    }
  }

  /** What updating a list of items at once leaves. */
  ghost function Closed(t: Entries, list: seq<Item>, rep: Item): Entries {
    Entries(SetParents(t.items, list, rep), MarkFound(t.found, list), Release(t.held, list),
            t.outbox + Forwards(t.held, list, rep))
  }

  lemma {:induction false} ClosedStep(t: Entries, before: seq<Item>, x: Item, rep: Item)
    requires t.Has(x) && x !in before
    ensures UpdateOne(Closed(t, before, rep), x, rep) == Closed(t, before + [x], rep)
  {
    OneMore(t, before, x, rep);
    Joined(t.outbox, Forwards(t.held, before, rep), Sends(t.held[x], x, rep));
    StillHas(t, before, x, rep);
  }

  lemma {:induction false} StillHas(t: Entries, list: seq<Item>, x: Item, rep: Item)
    requires t.Has(x)
    ensures Closed(t, list, rep).Has(x)
  {
  }

  lemma {:induction false} Joined<T>(a: seq<T>, b: seq<T>, c: seq<T>)
    ensures a + (b + c) == a + b + c
  {
  }

  /** The closed form. */
  lemma {:induction false} UpdateEachClosed(t: Entries, list: seq<Item>, rep: Item)
    requires NoRepeats(list) && forall x :: x in list ==> t.Has(x)
    ensures UpdateEach(t, list, rep) == Closed(t, list, rep)
  {
    if list != [] {
      var before, x := list[..|list| - 1], list[|list| - 1];
      assert list == before + [x] && x !in before;
      UpdateEachClosed(t, before, rep);
      ClosedStep(t, before, x, rep);
    } else {
      assert t.outbox + [] == t.outbox;
    }
  }

  lemma {:induction false} OneMore(t: Entries, list: seq<Item>, x: Item, rep: Item)
    requires t.Has(x) && x !in list
    ensures SetParents(t.items, list + [x], rep) == SetParents(t.items, list, rep)[x := t.items[x].(parent := rep)]
    ensures MarkFound(t.found, list + [x]) == MarkFound(t.found, list)[x := true]
    ensures Release(t.held, list + [x]) == Release(t.held, list)[x := []]
    ensures SetParents(t.items, list, rep)[x] == t.items[x] && Release(t.held, list)[x] == t.held[x]
    ensures Forwards(t.held, list + [x], rep) == Forwards(t.held, list, rep) + Sends(t.held[x], x, rep)
  {
    forall y ensures y in list + [x] <==> y in list || y == x {
    }
    ForwardOneMore(t.held, list, x, rep);
  }

  lemma {:induction false} ForwardOneMore(held: map<Item, seq<nat>>, list: seq<Item>, x: Item, rep: Item)
    requires x in held
    ensures Forwards(held, list + [x], rep) == Forwards(held, list, rep) + Sends(held[x], x, rep)
  {
    if list == [] {
      assert [x][1..] == [];
    } else {
      ForwardOneMore(held, list[1..], x, rep);
      assert (list + [x])[0] == list[0] && (list + [x])[1..] == list[1..] + [x];
      var first := if list[0] in held then Sends(held[list[0]], list[0], rep) else [];
      assert first + (Forwards(held, list[1..], rep) + Sends(held[x], x, rep))
          == first + Forwards(held, list[1..], rep) + Sends(held[x], x, rep);
    }
  }

  class Compressor {
    const rank: nat
    var items: Items                        // m_local_item_map
    var queries: map<Item, seq<Item>>       // local_inquiring_items, by parent
    var found: map<Item, bool>              // found_root
    var held: map<Item, seq<nat>>           // held_responses
    var outbox: seq<CompressMsg>

    ghost function View(): Entries
      reads this
    {
      Entries(items, found, held, outbox)
    }

    constructor (rank: nat, items: Items)
      ensures this.rank == rank && this.items == items
      ensures queries == map[] && found == map[] && held == map[] && outbox == []
    {
      this.rank, this.items := rank, items;
      queries, found, held, outbox := map[], map[], map[], [];
    }

    /** Prepare all queries and status entries of this rank. */
    method Prepare()
      requires queries == map[] && found == map[] && held == map[]
      modifies this`queries, this`found, this`held
      ensures RankPrepared(items, queries)
      ensures found == NotRoots(items, false)
      ensures held == NotRoots(items, [])
    {
      var todo := items.Keys;
      while todo != {}
        invariant todo <= items.Keys
        invariant PreparedBut(items, todo, queries, found, held)
      {
        HasMember(todo);
        var x :| x in todo;
        PrepareOneMore(items, todo, queries, found, held, x);
        PrepareItem(x);
        todo := todo - {x};
      }
      AllPrepared(items, queries, found, held);
    }

    method PrepareItem(x: Item)
      requires x in items
      modifies this`queries, this`found, this`held
      ensures queries == Asked(old(queries), x, items[x].parent)
      ensures found == if items[x].parent == x then old(found) else old(found)[x := false]
      ensures held == if items[x].parent == x then old(held) else old(held)[x := []]
    {
      var p := items[x].parent;
      if p != x {
        found := found[x := false];
        held := held[x := []];
        if p !in queries {
          assert [] + [x] == [x];
          queries := queries[p := [x]];
        } else {
          queries := queries[p := queries[p] + [x]];
        }
      }
    }

    method StartQueries()
      modifies this`outbox
      ensures |outbox| >= |old(outbox)| && outbox[..|old(outbox)|] == old(outbox)
      ensures forall m :: m in outbox[|old(outbox)|..] <==> m.Query? && m.from == rank && m.item in queries
      ensures NoRepeats(outbox[|old(outbox)|..]) && |outbox| == |old(outbox)| + |queries|
    {
      var todo := queries.Keys;
      var sent: seq<CompressMsg> := [];
      while todo != {}
        invariant todo <= queries.Keys
        invariant outbox == old(outbox)
        invariant forall m :: m in sent <==> m.Query? && m.from == rank && m.item in queries && m.item !in todo
        invariant NoRepeats(sent) && |sent| + |todo| == |queries.Keys|
      {
        HasMember(todo);
        var p :| p in todo;
        sent := sent + [Query(p, rank)];
        todo := todo - {p};
      }
      outbox := outbox + sent;
      assert outbox[|old(outbox)|..] == sent;
    }

    /** `query_rep_lambda`. */
    method OnQuery(x: Item, from: nat)
      requires x in items && (x in found ==> x in held)
      modifies this`held, this`outbox
      ensures if MustHold(found, x) then
                held == old(held)[x := old(held)[x] + [from]] && outbox == old(outbox)
              else
                held == old(held) && outbox == old(outbox) + [Update(from, x, items[x].parent)]
    {
      if x in found && !found[x] {
        held := held[x := held[x] + [from]];
      } else {
        outbox := outbox + [Update(from, x, items[x].parent)];
      }
    }

    /** `update_rep_functor`. */
    method OnUpdate(parent: Item, rep: Item)
      requires parent in queries && NoRepeats(queries[parent])
      requires forall x :: x in queries[parent] ==> View().Has(x)
      modifies this`items, this`found, this`held, this`outbox, this`queries
      ensures items == SetParents(old(items), old(queries)[parent], rep)
      ensures found == MarkFound(old(found), old(queries)[parent])
      ensures held == Release(old(held), old(queries)[parent])
      ensures outbox == old(outbox) + Forwards(old(held), old(queries)[parent], rep)
      ensures queries == old(queries)[parent := []]
    {
      var list := queries[parent];
      ghost var was := View();
      for i := 0 to |list|
        invariant queries == old(queries)
        invariant View() == UpdateEach(was, list[..i], rep)
      {
        assert list[i] in list;
        UpdateEachHas(was, list[..i], rep, list[i]);
        assert list[..i + 1][..i] == list[..i];
        UpdateItem(list[i], rep);
      }
      assert list[..|list|] == list;
      UpdateEachClosed(was, list, rep);
      queries := queries[parent := []];
    }

    /** The loop body: set the parent of one item and forward it to whoever waits for it. */
    method UpdateItem(x: Item, rep: Item)
      requires View().Has(x)
      modifies this`items, this`found, this`held, this`outbox
      ensures View() == UpdateOne(old(View()), x, rep)
    {
      items := items[x := items[x].(parent := rep)];
      if x in found {
        SendHeld(x, rep);
        found := found[x := true];
        held := held[x := []];
      }
    }

    /** Forward the representative for all held responses of `x`. */
    method SendHeld(x: Item, rep: Item)
      requires x in held
      modifies this`outbox
      ensures outbox == old(outbox) + Sends(held[x], x, rep)
    {
      for i := 0 to |held[x]|
        invariant outbox == old(outbox) + Sends(held[x], x, rep)[..i]
      {
        outbox := outbox + [Update(held[x][i], x, rep)];
      }
    }
  }
}
