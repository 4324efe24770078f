/** The query protocol of `all_compress`: every rank asks, once per distinct parent of its
    items, for the representative of that parent; an item whose own query is still open
    holds the questions it receives until it knows its representative. */
module CompressProtocol {
  import opened Forest
  import opened UnionProtocol
  import opened UnionRun
  import opened Sequences

  datatype CompressMsg =
    | Query(item: Item, from: nat)
    | Update(to: nat, item: Item, rep: Item)

  datatype CState = CState(
    items: Items,
    found: map<Item, bool>,                  // found_root of the items that are not roots
    held: map<Item, seq<nat>>,               // held_responses of the same items
    inquiring: map<(nat, Item), seq<Item>>,  // local_inquiring_items, by rank and parent
    msgs: seq<CompressMsg>)

  // ----- the handlers -----

  /** Whether a question about `x` has to wait. */
  predicate MustHold(found: map<Item, bool>, x: Item) {
    x in found && !found[x]
  }

  function Sends(ranks: seq<nat>, x: Item, rep: Item): seq<CompressMsg> {
    seq(|ranks|, i requires 0 <= i < |ranks| => Update(ranks[i], x, rep))
  }

  /** The answers to all questions held by the items of `list`. */
  function Forwards(held: map<Item, seq<nat>>, list: seq<Item>, rep: Item): seq<CompressMsg> {
    if list == [] then []
    else (if list[0] in held then Sends(held[list[0]], list[0], rep) else []) + Forwards(held, list[1..], rep)
  }

  function SetParents(items: Items, list: seq<Item>, rep: Item): Items {
    map x | x in items :: if x in list then items[x].(parent := rep) else items[x]
  }

  function MarkFound(found: map<Item, bool>, list: seq<Item>): map<Item, bool> {
    map x | x in found :: found[x] || x in list
  }

  function Release(held: map<Item, seq<nat>>, list: seq<Item>): map<Item, seq<nat>> {
    map x | x in held :: if x in list then [] else held[x]
  }

  predicate CanDeliver(s: CState, i: nat) {
    && i < |s.msgs|
    && match s.msgs[i] {
       case Query(x, _) => x in s.items && (x in s.found ==> x in s.held)
       case Update(to, x, _) => (to, x) in s.inquiring
       }
  }

  function DeliverNext(s: CState, i: nat): CState
    requires CanDeliver(s, i)
  {
    var rest := Without(s.msgs, i);
    match s.msgs[i]
    case Query(x, from) =>
      if MustHold(s.found, x) then
        s.(held := s.held[x := s.held[x] + [from]], msgs := rest)
      else
        s.(msgs := rest + [Update(from, x, s.items[x].parent)])
    case Update(to, x, rep) =>
      var list := s.inquiring[(to, x)];
      CState(SetParents(s.items, list, rep), MarkFound(s.found, list), Release(s.held, list),
             s.inquiring[(to, x) := []], rest + Forwards(s.held, list, rep))
  }

  // ----- the start -----

  predicate NoRepeats<T(==)>(list: seq<T>) {
    forall i, j :: 0 <= i < j < |list| ==> list[i] != list[j]
  }

  /** `x` is one of the items for which rank `q` asks about `p`. */
  ghost predicate Asks(cfg: Config, items: Items, q: nat, p: Item, x: Item) {
    x in items && cfg.owner(x) == q && items[x].parent == p && p != x
  }

  /** What one rank has set up for the items it owns. */
  ghost predicate RankPrepared(mine: Items, queries: map<Item, seq<Item>>) {
    && (forall p :: p in queries ==> NoRepeats(queries[p]) && queries[p] != [])
    && (forall p, x :: p in queries && x in queries[p] ==> x in mine && mine[x].parent == p && p != x)
    && (forall x :: x in mine && mine[x].parent != x ==> mine[x].parent in queries && x in queries[mine[x].parent])
  }

  /** The status map of the items that are not roots, all with the same value. */
  function NotRoots<T>(items: Items, v: T): map<Item, T> {
    map x | x in items && !IsRoot(items, x) :: v
  }

  lemma {:induction false} RankAsks(cfg: Config, items: Items, q: nat, queries: map<Item, seq<Item>>, p: Item, x: Item)
    requires RankPrepared(Owned(cfg, items, q), queries)
    requires p in queries && x in queries[p]
    ensures Asks(cfg, items, q, p, x)
  {
    var mine := Owned(cfg, items, q);
    assert x in mine && mine[x].parent == p;
  }

  /** What the ranks have set up when the first query is sent. */
  ghost predicate Prepared(cfg: Config, items: Items, s: CState) {
    && s.items == items
    && s.found == NotRoots(items, false)
    && s.held == NotRoots(items, [])
    && (forall k, x :: k in s.inquiring && x in s.inquiring[k] ==> Asks(cfg, items, k.0, k.1, x))
    && (forall k :: k in s.inquiring ==> NoRepeats(s.inquiring[k]) && s.inquiring[k] != [])
    && (forall x :: x in s.found ==>
          (cfg.owner(x), items[x].parent) in s.inquiring && x in s.inquiring[(cfg.owner(x), items[x].parent)])
    && (forall k :: k in s.inquiring ==> Query(k.1, k.0) in s.msgs)
    && (forall m :: m in s.msgs ==> m.Query? && (m.from, m.item) in s.inquiring)
  }

  /** Ranks that each prepared their own items are prepared together. */
  lemma {:induction false} RanksPrepared(cfg: Config, items: Items, queries: seq<map<Item, seq<Item>>>, s: CState)
    requires cfg.Valid() && |queries| == cfg.ranks
    requires forall q :: 0 <= q < cfg.ranks ==> RankPrepared(Owned(cfg, items, q), queries[q])
    requires s.items == items
    requires s.found == NotRoots(items, false)
    requires s.held == NotRoots(items, [])
    requires forall q: nat, p :: (q, p) in s.inquiring <==> q < cfg.ranks && p in queries[q]
    requires forall q: nat, p :: q < cfg.ranks && p in queries[q] ==> s.inquiring[(q, p)] == queries[q][p]
    requires forall m :: m in s.msgs <==> m.Query? && m.from < cfg.ranks && m.item in queries[m.from]
    ensures Prepared(cfg, items, s)
  {
    forall k | k in s.inquiring
      ensures NoRepeats(s.inquiring[k]) && s.inquiring[k] != [] && Query(k.1, k.0) in s.msgs
    {
      var q: nat, p := k.0, k.1;
      assert k == (q, p) && (q, p) in s.inquiring;
      assert RankPrepared(Owned(cfg, items, q), queries[q]);
      assert s.inquiring[k] == queries[q][p];
    }
    forall k, x | k in s.inquiring && x in s.inquiring[k] ensures Asks(cfg, items, k.0, k.1, x) {
      var q: nat, p := k.0, k.1;
      assert k == (q, p) && (q, p) in s.inquiring;
      assert RankPrepared(Owned(cfg, items, q), queries[q]);
      RankAsks(cfg, items, q, queries[q], p, x);
    }
    forall x | x in s.found
      ensures (cfg.owner(x), items[x].parent) in s.inquiring && x in s.inquiring[(cfg.owner(x), items[x].parent)]
    {
      var q := cfg.owner(x);
      assert RankPrepared(Owned(cfg, items, q), queries[q]) && x in Owned(cfg, items, q);
    }
  }

  // ----- the invariant -----

  /** `x` carries its old parent, or, once found, its representative. */
  ghost predicate ItemOk(cfg: Config, before: Items, s: CState, x: Item)
    requires IsForest(before)
  {
    && (x in s.items <==> x in before)
    && (x in s.found <==> x in before && !IsRoot(before, x))
    && (x in s.held <==> x in s.found)
    && (x in before ==>
          var p := if x in s.found && s.found[x] then Root(before, x) else before[x].parent;
          s.items[x] == before[x].(parent := p))
    && (x in s.found && !s.found[x] ==>
          (cfg.owner(x), before[x].parent) in s.inquiring && x in s.inquiring[(cfg.owner(x), before[x].parent)])
    && (x in s.found && s.found[x] ==> s.held[x] == [])
    && (x in s.held ==> forall q :: q in s.held[x] ==> (q, x) in s.inquiring)
  }

  /** An open query is on its way, held where it was asked, or answered. */
  ghost predicate QueryOk(cfg: Config, before: Items, s: CState, k: (nat, Item))
    requires IsForest(before)
  {
    k in s.inquiring ==>
      && k.1 in before
      && NoRepeats(s.inquiring[k])
      && (forall x :: x in s.inquiring[k] ==> Asks(cfg, before, k.0, k.1, x))
      && (s.inquiring[k] != [] ==>
            || Query(k.1, k.0) in s.msgs
            || (MustHold(s.found, k.1) && k.1 in s.held && k.0 in s.held[k.1])
            || Update(k.0, k.1, Root(before, k.1)) in s.msgs)
  }

  ghost predicate CompressMsgOk(before: Items, s: CState, m: CompressMsg)
    requires IsForest(before)
  {
    match m
    case Query(x, from) => (from, x) in s.inquiring
    case Update(to, x, rep) => (to, x) in s.inquiring && rep == Root(before, x)
  }

  ghost predicate CInv(cfg: Config, before: Items, s: CState) {
    && IsForest(before)
    && (forall x :: ItemOk(cfg, before, s, x))
    && (forall k :: QueryOk(cfg, before, s, k))
    && (forall m :: m in s.msgs ==> CompressMsgOk(before, s, m))
  }

  lemma {:induction false} PreparedInv(cfg: Config, items: Items, s: CState)
    requires IsForest(items) && Prepared(cfg, items, s)
    ensures CInv(cfg, items, s)
  {
    forall x ensures ItemOk(cfg, items, s, x) {
    }
    forall k ensures QueryOk(cfg, items, s, k) {
      if k in s.inquiring {
        var x := s.inquiring[k][0];
        assert x in s.inquiring[k];
        assert Grounded(items, x);
      }
    }
  }

  lemma {:induction false} DeliverableInv(cfg: Config, before: Items, s: CState, i: nat)
    requires CInv(cfg, before, s) && i < |s.msgs|
    ensures CanDeliver(s, i)
  {
    var m := s.msgs[i];
    assert m in s.msgs && CompressMsgOk(before, s, m);
    if m.Query? {
      assert QueryOk(cfg, before, s, (m.from, m.item)) && ItemOk(cfg, before, s, m.item);
    }
  }

  lemma {:induction false} QueryKeepsInv(cfg: Config, before: Items, s: CState, i: nat)
    requires CInv(cfg, before, s) && i < |s.msgs| && s.msgs[i].Query?
    ensures CanDeliver(s, i) && CInv(cfg, before, DeliverNext(s, i))
  {
    DeliverableInv(cfg, before, s, i);
    var m := s.msgs[i];
    var s' := DeliverNext(s, i);
    var kept := (m.from, m.item);
    assert CompressMsgOk(before, s, m) && ItemOk(cfg, before, s, m.item) && QueryOk(cfg, before, s, kept);
    forall x ensures ItemOk(cfg, before, s', x) {
      assert ItemOk(cfg, before, s, x);
    }
    forall k ensures QueryOk(cfg, before, s', k) {
      assert QueryOk(cfg, before, s, k);
      assert ItemOk(cfg, before, s, k.1);
      if k in s.inquiring {
        if k == kept && MustHold(s.found, m.item) {
          assert s'.held[m.item][|s.held[m.item]|] == m.from;
        }
        if k != kept && MustHold(s.found, k.1) && k.0 in s.held[k.1] {
          assert k.0 in s'.held[k.1];
        }
      }
    }
    forall n | n in s'.msgs ensures CompressMsgOk(before, s', n) {
      if n in s.msgs {
        assert CompressMsgOk(before, s, n);
      }
    }
  }

  lemma {:induction false} ForwardsContent(held: map<Item, seq<nat>>, list: seq<Item>, rep: Item, m: CompressMsg)
    ensures m in Forwards(held, list, rep) <==>
            m.Update? && m.rep == rep && m.item in list && m.item in held && m.to in held[m.item]
  {
    if list != [] {
      ForwardsContent(held, list[1..], rep, m);
      assert list == [list[0]] + list[1..];
      if list[0] in held {
        var ranks := held[list[0]];
        var sends := Sends(ranks, list[0], rep);
        if m in sends {
          var j :| 0 <= j < |sends| && sends[j] == m;
          assert ranks[j] in ranks;
        }
        if m.Update? && m.rep == rep && m.item == list[0] && m.to in ranks {
          var j :| 0 <= j < |ranks| && ranks[j] == m.to;
          assert sends[j] == m;
        }
      }
    }
  }

  lemma {:induction false} UpdateKeepsInv(cfg: Config, before: Items, s: CState, i: nat)
    requires CInv(cfg, before, s) && i < |s.msgs| && s.msgs[i].Update?
    ensures CanDeliver(s, i) && CInv(cfg, before, DeliverNext(s, i))
  {
    DeliverableInv(cfg, before, s, i);
    var m := s.msgs[i];
    var s' := DeliverNext(s, i);
    var done := (m.to, m.item);
    var list := s.inquiring[done];
    assert CompressMsgOk(before, s, m) && QueryOk(cfg, before, s, done);
    forall x | x in list ensures Root(before, x) == m.rep && x in s.found {
      assert Asks(cfg, before, m.to, m.item, x);
      assert ItemOk(cfg, before, s, x);
    }
    forall x ensures ItemOk(cfg, before, s', x) {
      assert ItemOk(cfg, before, s, x);
      if x in s.found && (cfg.owner(x), before[x].parent) == done && !s.found[x] {
        assert x in list;
      }
    }
    forall k ensures QueryOk(cfg, before, s', k) {
      assert QueryOk(cfg, before, s, k);
      if k in s.inquiring && k != done {
        UpdateKeepsQuery(cfg, before, s, i, k);
      }
    }
    forall n | n in s'.msgs ensures CompressMsgOk(before, s', n) {
      if n in Forwards(s.held, list, m.rep) {
        ForwardsContent(s.held, list, m.rep, n);
        assert ItemOk(cfg, before, s, n.item);
      } else {
        assert n in s.msgs && CompressMsgOk(before, s, n);
      }
    }
  }

  /** Every open query but the answered one is still on its way, held, or answered. */
  lemma {:induction false} UpdateKeepsQuery(cfg: Config, before: Items, s: CState, i: nat, k: (nat, Item))
    requires CInv(cfg, before, s) && i < |s.msgs| && s.msgs[i].Update? && CanDeliver(s, i)
    requires k in s.inquiring && k != (s.msgs[i].to, s.msgs[i].item)
    requires forall x :: x in s.inquiring[(s.msgs[i].to, s.msgs[i].item)] ==> Root(before, x) == s.msgs[i].rep
    ensures QueryOk(cfg, before, DeliverNext(s, i), k)
  {
    var m := s.msgs[i];
    var s' := DeliverNext(s, i);
    var list := s.inquiring[(m.to, m.item)];
    assert QueryOk(cfg, before, s, k) && ItemOk(cfg, before, s, k.1);
    if s.inquiring[k] != [] {
      if Query(k.1, k.0) in s.msgs {
      } else if Update(k.0, k.1, Root(before, k.1)) in s.msgs {
      } else if k.1 in list {
        ForwardsContent(s.held, list, m.rep, Update(k.0, k.1, m.rep));
        assert Update(k.0, k.1, m.rep) in s'.msgs;
      }
    }
  }

  lemma {:induction false} DeliverKeepsCInv(cfg: Config, before: Items, s: CState, i: nat)
    requires CInv(cfg, before, s) && i < |s.msgs|
    ensures CanDeliver(s, i) && CInv(cfg, before, DeliverNext(s, i))
  {
    if s.msgs[i].Query? {
      QueryKeepsInv(cfg, before, s, i);
    } else {
      UpdateKeepsInv(cfg, before, s, i);
    }
  }

  // ----- nothing is stuck when no message is left -----

  /** A question waits only for an item further up, so with no message left none waits. */
  lemma {:induction false} NothingHeld(cfg: Config, before: Items, s: CState, x: Item)
    requires CInv(cfg, before, s) && s.msgs == []
    ensures x in s.found ==> s.found[x]
    decreases Above(before, x)
  {
    if x in before && !IsRoot(before, x) {
      var p := before[x].parent;
      assert Grounded(before, x) && ItemOk(cfg, before, s, x) && QueryOk(cfg, before, s, (cfg.owner(x), p));
      AboveShrinks(before, x, p);
      NothingHeld(cfg, before, s, p);
    } else {
      assert ItemOk(cfg, before, s, x);
    }
  }

  lemma {:induction false} QuiescentIsFlattened(cfg: Config, before: Items, s: CState)
    requires CInv(cfg, before, s) && s.msgs == []
    ensures s.items == Flattened(before)
  {
    forall x ensures x in s.items <==> x in before {
      assert ItemOk(cfg, before, s, x);
    }
    forall x | x in before ensures s.items[x] == Flattened(before)[x] {
      assert ItemOk(cfg, before, s, x);
      NothingHeld(cfg, before, s, x);
    }
  }

  // ----- and the messages run out -----

  function Queries(msgs: seq<CompressMsg>): nat {
    if msgs == [] then 0 else (if msgs[0].Query? then 1 else 0) + Queries(msgs[1..])
  }

  lemma {:induction false} QueriesAppend(a: seq<CompressMsg>, b: seq<CompressMsg>)
    ensures Queries(a + b) == Queries(a) + Queries(b)
  {
    if a == [] {
      assert a + b == b;
    } else {
      QueriesAppend(a[1..], b);
      assert (a + b)[1..] == a[1..] + b;
    }
  }

  lemma {:induction false} QueriesWithout(msgs: seq<CompressMsg>, i: nat)
    requires i < |msgs|
    ensures Queries(msgs) == Queries(Without(msgs, i)) + if msgs[i].Query? then 1 else 0
  {
    QueriesAppend(msgs[..i], msgs[i + 1..]);
    QueriesAppend(msgs[..i], msgs[i..]);
    assert msgs == msgs[..i] + msgs[i..];
    assert msgs[i..][1..] == msgs[i + 1..];
  }

  lemma {:induction false} NoQueries(msgs: seq<CompressMsg>)
    requires forall m :: m in msgs ==> m.Update?
    ensures Queries(msgs) == 0
  {
    if msgs != [] {
      assert msgs[0] in msgs;
      NoQueries(msgs[1..]);
    }
  }

  /** The questions held, one element each. */
  ghost function Slots(held: map<Item, seq<nat>>): set<(Item, nat)> {
    set x, i: nat | x in held && i < |held[x]| :: (x, i)
  }

  ghost function SlotsOf(x: Item, n: nat): set<(Item, nat)> {
    set i: nat | i < n :: (x, i)
  }

  lemma {:induction false} SlotsOfSize(x: Item, n: nat)
    ensures |SlotsOf(x, n)| == n
  {
    if n > 0 {
      SlotsOfSize(x, n - 1);
      assert SlotsOf(x, n) == SlotsOf(x, n - 1) + {(x, n - 1)};
    }
  }

  lemma {:induction false} SlotsSplit(held: map<Item, seq<nat>>, x: Item, rest: seq<Item>, list: seq<Item>)
    requires list == [x] + rest && x !in rest && x in held
    ensures Slots(Release(held, rest)) == Slots(Release(held, list)) + SlotsOf(x, |held[x]|)
    ensures Slots(Release(held, list)) !! SlotsOf(x, |held[x]|)
  {
  }

  /** Releasing held questions sends one answer for each. */
  lemma {:induction false} ReleaseCounts(held: map<Item, seq<nat>>, list: seq<Item>, rep: Item)
    requires NoRepeats(list)
    ensures |Slots(held)| == |Slots(Release(held, list))| + |Forwards(held, list, rep)|
  {
    if list == [] {
      assert Release(held, list) == held;
    } else {
      var x := list[0];
      var rest := list[1..];
      assert list == [x] + rest;
      assert x !in rest by {
        forall j | 0 <= j < |rest| ensures rest[j] != x {
          assert rest[j] == list[j + 1];
        }
      }
      ReleaseCounts(held, rest, rep);
      if x in held {
        SlotsOfSize(x, |held[x]|);
        SlotsSplit(held, x, rest, list);
      } else {
        assert Release(held, list) == Release(held, rest);
      }
    }
  }

  /** Questions held count twice: an answer still has to be sent and received. */
  ghost function Answers(s: CState): nat {
    2 * |Slots(s.held)| + |s.msgs|
  }

  lemma {:induction false} DeliverDecreasesC(cfg: Config, before: Items, s: CState, i: nat)
    requires CInv(cfg, before, s) && i < |s.msgs| && CanDeliver(s, i)
    ensures var s' := DeliverNext(s, i);
      || Queries(s'.msgs) < Queries(s.msgs)
      || (Queries(s'.msgs) == Queries(s.msgs) && Answers(s') < Answers(s))
  {
    var m := s.msgs[i];
    var rest := Without(s.msgs, i);
    QueriesWithout(s.msgs, i);
    if m.Query? {
      QueriesAppend(rest, [Update(m.from, m.item, s.items[m.item].parent)]);
    } else {
      assert QueryOk(cfg, before, s, (m.to, m.item));
      var list := s.inquiring[(m.to, m.item)];
      var forwards := Forwards(s.held, list, m.rep);
      forall n | n in forwards ensures n.Update? {
        ForwardsContent(s.held, list, m.rep, n);
      }
      NoQueries(forwards);
      QueriesAppend(rest, forwards);
      ReleaseCounts(s.held, list, m.rep);
    }
  }

  // ----- the theorem -----

  ghost predicate DeliversAt(run: nat -> CState, j: nat) {
    run(j).msgs != [] ==> exists i: nat :: CanDeliver(run(j), i) && run(j + 1) == DeliverNext(run(j), i)
  }

  lemma {:induction false} CompressDrainsFrom(cfg: Config, before: Items, run: nat -> CState, j: nat) returns (n: nat)
    requires CInv(cfg, before, run(j))
    requires forall k: nat :: DeliversAt(run, k)
    ensures run(n).msgs == [] && CInv(cfg, before, run(n))
    decreases Queries(run(j).msgs), Answers(run(j))
  {
    if run(j).msgs == [] {
      n := j;
    } else {
      assert DeliversAt(run, j);
      var i: nat :| CanDeliver(run(j), i) && run(j + 1) == DeliverNext(run(j), i);
      DeliverKeepsCInv(cfg, before, run(j), i);
      DeliverDecreasesC(cfg, before, run(j), i);
      n := CompressDrainsFrom(cfg, before, run, j + 1);
    }
  }

  /** Under every order of delivery the query protocol ends, and then every item's parent is
      the representative it had before; ranks and estimates are unchanged. */
  lemma {:induction false} CompressReachesFlat(cfg: Config, items: Items, run: nat -> CState)
    requires IsForest(items) && Prepared(cfg, items, run(0))
    requires forall k: nat :: DeliversAt(run, k)
    ensures exists n: nat :: run(n).msgs == [] && run(n).items == Flattened(items)
  {
    PreparedInv(cfg, items, run(0));
    var n := CompressDrainsFrom(cfg, items, run, 0);
    QuiescentIsFlattened(cfg, items, run(n));
  }

  /** No delivery order gets stuck either: a message in flight can always be handled, in
      particular the answer to a query is received by a rank that asked it. */
  lemma {:induction false} CompressNeverStuck(cfg: Config, items: Items, run: nat -> CState, n: nat, i: nat)
    requires IsForest(items) && Prepared(cfg, items, run(0))
    requires forall k: nat :: DeliversAt(run, k) && (run(k).msgs == [] ==> run(k + 1) == run(k))
    requires i < |run(n).msgs|
    ensures CanDeliver(run(n), i)
  {
    PreparedInv(cfg, items, run(0));
    CompressInvAt(cfg, items, run, n);
    DeliverableInv(cfg, items, run(n), i);
  }

  lemma {:induction false} CompressInvAt(cfg: Config, items: Items, run: nat -> CState, n: nat)
    requires CInv(cfg, items, run(0))
    requires forall k: nat :: DeliversAt(run, k) && (run(k).msgs == [] ==> run(k + 1) == run(k))
    ensures CInv(cfg, items, run(n))
  {
    hide CInv;
    hide DeliverNext;
    if n > 0 {
      CompressInvAt(cfg, items, run, n - 1);
      assert DeliversAt(run, n - 1);
      if run(n - 1).msgs != [] {
        var i: nat :| CanDeliver(run(n - 1), i) && run(n) == DeliverNext(run(n - 1), i);
        DeliverKeepsCInv(cfg, items, run(n - 1), i);
      }
    }
  }
}
