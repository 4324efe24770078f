/** For finitely many unions the protocol runs finitely many handlers, in any order of
    delivery, and what it then holds is exactly the equivalence of the unions. */
module UnionTermination {
  import opened Forest
  import opened UnionProtocol
  import opened UnionRun
  import opened Sequences
  import opened UnionConnectivity

  // ----- the universe of items that can ever be mentioned -----

  ghost predicate MsgWithin(universe: set<Item>, m: Msg) {
    && m.dest in universe
    && (m.Walk? ==> m.child in universe && m.otherParent in universe && m.otherItem in universe)
    && (m.Resolve? ==> m.merging in universe)
  }

  ghost predicate Within(universe: set<Item>, s: State) {
    s.items.Keys <= universe && forall m :: m in s.msgs ==> MsgWithin(universe, m)
  }

  function Named(m: Msg): set<Item> {
    {m.dest} + (if m.Walk? then {m.child, m.otherParent, m.otherItem} else {})
    + (if m.Resolve? then {m.merging} else {})
  }

  ghost function Universe(s: State): set<Item> {
    s.items.Keys + set m, x | m in s.msgs && x in Named(m) :: x
  }

  lemma {:induction false} UniverseWithin(s: State)
    ensures Within(Universe(s), s)
  {
    forall m | m in s.msgs ensures MsgWithin(Universe(s), m) {
      forall x | x in Named(m) ensures x in Universe(s) {
      }
      assert m.dest in Named(m);
    }
  }

  // ----- the measure -----

  /** How many items of the universe lie above `x`. */
  ghost function Height(universe: set<Item>, items: Items, x: Item): nat {
    |HigherThan(universe, items, x)|
  }

  ghost function HigherThan(universe: set<Item>, items: Items, x: Item): set<Item> {
    set y | y in universe && Below(items, x, y)
  }

  lemma {:induction false} HeightDrops(universe: set<Item>, items: Items, x: Item, y: Item)
    requires y in universe && Below(items, x, y)
    ensures Height(universe, items, y) < Height(universe, items, x)
  {
    var above, higher := HigherThan(universe, items, x), HigherThan(universe, items, y);
    assert y in above && y !in higher && higher <= above;
    assert above == higher + (above - higher);
    assert y in above - higher;
  }

  /** How often a walk between two roots may still change sides before it links them. */
  function Turns(items: Items, m: Msg): (t: nat)
    requires m.Walk?
    ensures t <= 2
  {
    if m.otherRank != Look(items, m.otherParent).rank then 2
    else if Below(items, m.otherParent, m.dest) then 1
    else 0
  }

  ghost function Distance(universe: set<Item>, items: Items, m: Msg): nat
    requires m.Walk?
  {
    3 * (Height(universe, items, m.dest) + Height(universe, items, m.otherParent)) + Turns(items, m)
  }

  ghost function Weight(universe: set<Item>, items: Items, m: Msg): nat {
    if m.Walk? then 2 * Distance(universe, items, m) + 2 else if m.Resolve? then 0 else 1
  }

  ghost function Work(universe: set<Item>, items: Items, msgs: seq<Msg>): nat {
    if msgs == [] then 0 else Weight(universe, items, msgs[0]) + Work(universe, items, msgs[1..])
  }

  function MergesIn(msgs: seq<Msg>): nat {
    if msgs == [] then 0 else (if msgs[0].Resolve? then 1 else 0) + MergesIn(msgs[1..])
  }

  ghost function RootsIn(universe: set<Item>, items: Items): set<Item> {
    set x | x in universe && IsRoot(items, x)
  }

  /** Links still possible, counted twice, and merge requests in flight. */
  ghost function LinksLeft(universe: set<Item>, s: State): nat {
    2 * |RootsIn(universe, s.items)| + MergesIn(s.msgs)
  }

  lemma {:induction false} SumsAppend(universe: set<Item>, items: Items, s: seq<Msg>, t: seq<Msg>)
    ensures Work(universe, items, s + t) == Work(universe, items, s) + Work(universe, items, t)
    ensures MergesIn(s + t) == MergesIn(s) + MergesIn(t)
  {
    if s == [] {
      assert s + t == t;
    } else {
      SumsAppend(universe, items, s[1..], t);
      assert (s + t)[1..] == s[1..] + t;
    }
  }

  lemma {:induction false} SumsWithout(universe: set<Item>, items: Items, s: seq<Msg>, i: nat)
    requires i < |s|
    ensures Work(universe, items, s) == Work(universe, items, Without(s, i)) + Weight(universe, items, s[i])
    ensures MergesIn(s) == MergesIn(Without(s, i)) + if s[i].Resolve? then 1 else 0
  {
    SumsAppend(universe, items, s[..i], s[i + 1..]);
    SumsAppend(universe, items, s[..i], s[i..]);
    assert s == s[..i] + s[i..];
    assert s[i..][1..] == s[i + 1..];
  }

  lemma {:induction false} WorkCongruent(universe: set<Item>, items: Items, items': Items, s: seq<Msg>)
    requires forall x :: Look(items', x).rank == Look(items, x).rank
    ensures Work(universe, items', s) == Work(universe, items, s)
  {
    if s != [] {
      WorkCongruent(universe, items, items', s[1..]);
      forall x ensures HigherThan(universe, items', x) == HigherThan(universe, items, x) {
      }
    }
  }

  // ----- every handler decreases it -----

  /** A walk that goes on is closer to its end: it climbed on one side, or it stands between
      two roots and knows more about their order than before. */
  lemma {:induction false} WalkGetsCloser(hash: Item -> nat, universe: set<Item>, items: Items, cache: Cache, m: Msg)
    requires CanHandle(items, cache, m) && m.Walk?
    requires items.Keys <= universe
    requires HandleWalk(hash, items, cache, m).verdict == Forwarded
    ensures var out := HandleWalk(hash, items, cache, m).out;
      && 1 <= |out| <= 2 && out[|out| - 1].Walk? && (|out| == 2 ==> out[0].Split?)
      && Distance(universe, items, out[|out| - 1]) < Distance(universe, items, m)
  {
    Ends(hash, items, cache, m);
    var (p, e) := MyEnd(hash, items, cache, m);
    var (q, r) := OtherEnd(hash, items, cache, m);
    if p != m.dest {
      HeightDrops(universe, items, m.dest, p);
    }
    if q != m.otherParent {
      HeightDrops(universe, items, m.otherParent, q);
    }
  }

  lemma {:induction false} SumsOfOne(universe: set<Item>, items: Items, m: Msg)
    ensures Work(universe, items, [m]) == Weight(universe, items, m)
    ensures MergesIn([m]) == if m.Resolve? then 1 else 0
  {
    assert [m][1..] == [];
    assert Work(universe, items, []) == 0 && MergesIn([]) == 0;
  }

  lemma {:induction false} SumsOfTwo(universe: set<Item>, items: Items, s: seq<Msg>)
    requires |s| <= 2
    ensures Work(universe, items, s) == (if |s| > 0 then Weight(universe, items, s[0]) else 0)
                                        + (if |s| > 1 then Weight(universe, items, s[1]) else 0)
    ensures MergesIn(s) <= |s| && (|s| == 2 && !s[0].Resolve? ==> MergesIn(s) <= 1)
    ensures (forall m :: m in s ==> !m.Resolve?) ==> MergesIn(s) == 0
  {
    if |s| == 2 {
      SumsOfOne(universe, items, s[1]);
      assert s[1..] == [s[1]];
      assert s[0] in s && s[1] in s;
    } else if |s| == 1 {
      SumsOfOne(universe, items, s[0]);
      assert s == [s[0]];
      assert s[0] in s;
    }
  }

  lemma {:induction false} WalkWork(hash: Item -> nat, universe: set<Item>, items: Items, cache: Cache, m: Msg)
    requires CanHandle(items, cache, m) && m.Walk?
    requires items.Keys <= universe
    ensures var o := HandleWalk(hash, items, cache, m);
      && (o.verdict != Linked ==> Work(universe, items, o.out) < Weight(universe, items, m) && MergesIn(o.out) == 0)
      && MergesIn(o.out) <= 1
  {
    var o := HandleWalk(hash, items, cache, m);
    WalkOut(hash, items, cache, m);
    SumsOfTwo(universe, items, o.out);
    if o.verdict == Forwarded {
      WalkGetsCloser(hash, universe, items, cache, m);
    }
  }

  lemma {:induction false} HandleWithin(hash: Item -> nat, universe: set<Item>, items: Items, cache: Cache, m: Msg)
    requires CanHandle(items, cache, m) && items.Keys <= universe && MsgWithin(universe, m)
    ensures forall n :: n in Handle(hash, items, cache, m).out ==> MsgWithin(universe, n)
  {
    if m.Walk? {
      Ends(hash, items, cache, m);
    }
  }

  /** What a handler does to the links left and the work, for a visited item that exists. */
  lemma {:induction false} HandleDecreases(hash: Item -> nat, universe: set<Item>, items: Items, cache: Cache, m: Msg)
    requires CanHandle(items, cache, m) && items.Keys <= universe
    ensures var o := Handle(hash, items, cache, m); var items' := items[m.dest := o.data];
      var links := 2 * |RootsIn(universe, items)| + if m.Resolve? then 1 else 0;
      var links' := 2 * |RootsIn(universe, items')| + MergesIn(o.out);
      && links' <= links
      && (links' == links ==>
            && (forall x :: Look(items', x).rank == Look(items, x).rank)
            && Work(universe, items', o.out) < Weight(universe, items, m))
  {
    var o := Handle(hash, items, cache, m);
    var items' := items[m.dest := o.data];
    if m.Walk? {
      WalkEffect(hash, items, cache, m);
      WalkWork(hash, universe, items, cache, m);
      if o.verdict == Linked {
        assert RootsIn(universe, items) == RootsIn(universe, items') + {m.dest};
      } else {
        assert items' == items;
      }
    } else {
      OtherDecreases(hash, universe, items, cache, m);
    }
  }

  lemma {:induction false} OtherDecreases(hash: Item -> nat, universe: set<Item>, items: Items, cache: Cache, m: Msg)
    requires CanHandle(items, cache, m) && !m.Walk?
    ensures var o := Handle(hash, items, cache, m); var items' := items[m.dest := o.data];
      var links := 2 * |RootsIn(universe, items)| + if m.Resolve? then 1 else 0;
      var links' := 2 * |RootsIn(universe, items')| + MergesIn(o.out);
      && links' <= links
      && (links' == links ==>
            && (forall x :: Look(items', x).rank == Look(items, x).rank)
            && Work(universe, items', o.out) < Weight(universe, items, m))
  {
    var o := Handle(hash, items, cache, m);
    var items' := items[m.dest := o.data];
    OtherEffect(hash, items, cache, m);
    SumsOfTwo(universe, items', o.out);
    assert RootsIn(universe, items') == RootsIn(universe, items);
  }

  lemma {:induction false} VisitSame(universe: set<Item>, items: Items, x: Item, msgs: seq<Msg>)
    requires IsForest(items)
    ensures RootsIn(universe, Visit(items, x)) == RootsIn(universe, items)
    ensures Work(universe, Visit(items, x), msgs) == Work(universe, items, msgs)
  {
    VisitEvolves(items, x);
    WorkCongruent(universe, items, Visit(items, x), msgs);
  }

  /** One delivery decreases the links left, or keeps them and decreases the work. */
  lemma {:induction false} DeliverDecreases(cfg: Config, universe: set<Item>, s: State, i: nat)
    requires Inv(cfg, s) && i < |s.msgs| && Within(universe, s)
    ensures var s' := DeliverMsg(cfg, s, i);
      && Within(universe, s')
      && (LinksLeft(universe, s') < LinksLeft(universe, s) ||
          (LinksLeft(universe, s') == LinksLeft(universe, s) &&
           Work(universe, s'.items, s'.msgs) < Work(universe, s.items, s.msgs)))
  {
    var m := s.msgs[i];
    var items := Visit(s.items, m.dest);
    var cache := s.caches[cfg.owner(m.dest)];
    var s' := DeliverMsg(cfg, s, i);
    var o := Outcomes(cfg, s, i);
    var rest := Without(s.msgs, i);
    assert m in s.msgs && MsgWithin(universe, m);
    VisitKeeps(cfg, s, m);
    VisitSame(universe, s.items, m.dest, s.msgs);
    HandleWithin(cfg.hash, universe, items, cache, m);
    HandleDecreases(cfg.hash, universe, items, cache, m);
    SumsWithout(universe, items, s.msgs, i);
    SumsAppend(universe, s'.items, rest, o.out);
    if LinksLeft(universe, s') == LinksLeft(universe, s) {
      WorkCongruent(universe, items, s'.items, rest);
    }
  }

  // ----- draining -----

  /** One step of a schedule: as long as a message is in flight, some message is delivered. */
  ghost predicate Delivers(cfg: Config, s: State, s': State) {
    Inv(cfg, s) && s.msgs != [] ==> exists i: nat :: i < |s.msgs| && s' == DeliverMsg(cfg, s, i)
  }

  ghost predicate Schedules(cfg: Config, run: nat -> State, j: nat) {
    Delivers(cfg, run(j), run(j + 1))
  }

  /** `all` extends `labels` by deliveries only and ends with no message in flight. */
  ghost predicate Drained(cfg: Config, labels: seq<Label>, all: seq<Label>)
    requires cfg.Valid()
  {
    && labels <= all && (forall l :: l in all[|labels|..] ==> l.Deliver?)
    && Run(cfg, all).msgs == []
    && Run(cfg, all).unions == Run(cfg, labels).unions
    && Run(cfg, all).calls == Run(cfg, labels).calls
  }

  lemma {:induction false} DrainedEarlier(cfg: Config, all: seq<Label>, k: nat, all': seq<Label>)
    requires cfg.Valid() && Drained(cfg, all + [Deliver(k)], all')
    ensures Drained(cfg, all, all')
  {
  }

  lemma {:induction false} DrainsFrom(cfg: Config, all: seq<Label>, universe: set<Item>, run: nat -> State, i: nat)
    returns (n: nat, all': seq<Label>)
    requires cfg.Valid()
    requires forall j: nat :: Schedules(cfg, run, j)
    requires run(i) == Run(cfg, all) && Within(universe, run(i))
    ensures run(n) == Run(cfg, all') && Drained(cfg, all, all')
    decreases LinksLeft(universe, run(i)), Work(universe, run(i).items, run(i).msgs)
  {
    hide LinksLeft;
    hide Work;
    hide Within;
    hide DeliverMsg;
    var s := run(i);
    if s.msgs == [] {
      n, all' := i, all;
    } else {
      assert Schedules(cfg, run, i);
      var k: nat :| k < |s.msgs| && run(i + 1) == DeliverMsg(cfg, s, k);
      DeliverDecreases(cfg, universe, s, k);
      var next := all + [Deliver(k)];
      n, all' := DrainsFrom(cfg, next, universe, run, i + 1);
      DrainedEarlier(cfg, all, k, all');
    }
  }

  /** From any reachable state, every schedule reaches quiescence after finitely many
      handlers, and then two items share a root exactly when the unions connect them. */
  lemma {:induction false} EveryScheduleDrains(cfg: Config, labels: seq<Label>, run: nat -> State)
    requires cfg.Valid() && run(0) == Run(cfg, labels)
    requires forall j: nat :: Schedules(cfg, run, j)
    ensures exists n: nat, all: seq<Label> ::
      && run(n) == Run(cfg, all) && Drained(cfg, labels, all)
      && forall x, y :: Root(run(n).items, x) == Root(run(n).items, y) <==> Connected(Run(cfg, labels).unions, x, y)
  {
    UniverseWithin(run(0));
    var n, all := DrainsFrom(cfg, labels, Universe(run(0)), run, 0);
    forall x, y
      ensures Root(run(n).items, x) == Root(run(n).items, y) <==> Connected(Run(cfg, labels).unions, x, y)
    {
      SharedRootIffConnected(cfg, all, x, y);
    }
  }
}
