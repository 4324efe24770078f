/** `all_find`: every rank asks for the representatives of some items.  A question climbs from
    parent to parent; the root it reaches becomes the parent of the item asked for and is
    stored in the answers of the rank that asked.  Questions, parent updates and answers of
    all ranks are in flight together and are delivered in any order. */
module FindProtocol {
  import opened Forest
  import opened Sequences
  import opened Sets
  import opened UnionRun
  import UnionConnectivity

  /** The parent in an entry that `m_local_item_map[x]` creates: a value-initialised item. */
  const BLANK: Item := 0

  function Fetch(items: Items, x: Item): Items {
    if x in items then items else items[x := Data(BLANK, 0, 0)]
  }

  datatype FindMsg =
    | Find(asker: nat, source: Item, at: Item)       // find_rep_functor, run by the owner of `at`
    | Adopt(source: Item, root: Item)                // the parent update, run by the owner of `source`
    | Reply(asker: nat, source: Item, root: Item)    // the answer, run by the rank that asked

  datatype FindState = FindState(
    items: Items,                        // the entries of all ranks
    msgs: seq<FindMsg>,                  // the messages in flight
    answers: map<(nat, Item), Item>)     // the returned maps, keyed by rank and item

  datatype FindLabel = Ask(asker: nat, item: Item) | Handle(index: nat)

  /** What the functor sends when the parent of `m.at` is `p`. */
  function FindSends(m: FindMsg, p: Item): seq<FindMsg>
    requires m.Find?
  {
    if p == m.at then [Adopt(m.source, p), Reply(m.asker, m.source, p)] else [Find(m.asker, m.source, p)]
  }

  function Adopted(items: Items, x: Item, root: Item): Items {
    var fetched := Fetch(items, x);
    fetched[x := fetched[x].(parent := root)]
  }

  function HandleMsg(s: FindState, i: nat): FindState
    requires i < |s.msgs|
  {
    var rest := Without(s.msgs, i);
    match s.msgs[i]
    case Find(asker, source, at) =>
      var items := Fetch(s.items, at);
      FindState(items, rest + FindSends(s.msgs[i], items[at].parent), s.answers)
    case Adopt(source, root) => FindState(Adopted(s.items, source, root), rest, s.answers)
    case Reply(asker, source, root) => FindState(s.items, rest, s.answers[(asker, source) := root])
  }

  function FindNext(s: FindState, l: FindLabel): FindState {
    match l
    case Ask(q, x) => s.(msgs := s.msgs + [Find(q, x, x)])
    case Handle(i) => if i < |s.msgs| then HandleMsg(s, i) else s
  }

  /** A run of `all_find` on the entries that its first barrier leaves. */
  function Finds(items: Items, labels: seq<FindLabel>): FindState {
    if labels == [] then FindState(items, [], map[])
    else FindNext(Finds(items, labels[..|labels| - 1]), labels[|labels| - 1])
  }

  /** Who asked for what. */
  function Asked(labels: seq<FindLabel>): set<(nat, Item)> {
    set l | l in labels && l.Ask? :: (l.asker, l.item)
  }

  function ItemsOf(asked: set<(nat, Item)>): set<Item> {
    set c | c in asked :: c.1
  }

  // ----- the invariant -----

  /** The answer to a question about `x`: an item that has no entry gets that of `BLANK`. */
  ghost function Rep(forest: Items, x: Item): Item
    requires IsForest(forest)
  {
    Root(forest, if x in forest then x else BLANK)
  }

  function Entry(forest: Items, x: Item): Data {
    if x in forest then forest[x] else Data(BLANK, 0, 0)
  }

  /** An entry is as it was, or its item was asked for and now points at the answer. */
  ghost predicate EntryKept(forest: Items, asked: set<(nat, Item)>, items: Items, x: Item)
    requires IsForest(forest) && x in items
  {
    && (x in forest || x in ItemsOf(asked) || (x == BLANK && !(ItemsOf(asked) <= forest.Keys)))
    && (|| items[x] == Entry(forest, x)
        || (&& x in ItemsOf(asked) && Rep(forest, x) in items
            && items[x] == Entry(forest, x).(parent := Rep(forest, x))))
  }

  ghost predicate FindMsgOk(forest: Items, asked: set<(nat, Item)>, items: Items, m: FindMsg)
    requires IsForest(forest)
  {
    match m
    case Find(asker, source, at) =>
      && (asker, source) in asked && Rep(forest, at) == Rep(forest, source)
      && (at == source || (source in items && (at in forest || (at == BLANK && source !in forest))))
    case Adopt(source, root) =>
      source in items && root in items && source in ItemsOf(asked) && root == Rep(forest, source)
    case Reply(asker, source, root) => (asker, source) in asked && root == Rep(forest, source)
  }

  predicate Replies(m: FindMsg, c: (nat, Item)) {
    !m.Adopt? && m.asker == c.0 && m.source == c.1
  }

  predicate Adopts(m: FindMsg, x: Item) {
    !m.Reply? && m.source == x
  }

  ghost predicate PointsAtRep(forest: Items, items: Items, x: Item)
    requires IsForest(forest)
  {
    x in items && items[x].parent == Rep(forest, x) && Rep(forest, x) in items
  }

  /** A question is answered or its message is on the way, and so is the parent update. */
  ghost predicate Tracked(forest: Items, s: FindState, c: (nat, Item))
    requires IsForest(forest)
  {
    && (c in s.answers || exists m :: m in s.msgs && Replies(m, c))
    && (PointsAtRep(forest, s.items, c.1) || exists m :: m in s.msgs && Adopts(m, c.1))
  }

  ghost predicate FInv(forest: Items, asked: set<(nat, Item)>, s: FindState) {
    && IsForest(forest) && forest.Keys <= s.items.Keys
    && (forall x :: x in s.items ==> EntryKept(forest, asked, s.items, x))
    && (forall m :: m in s.msgs ==> FindMsgOk(forest, asked, s.items, m))
    && (forall c :: c in asked ==> Tracked(forest, s, c))
    && (forall c :: c in s.answers ==> c in asked && s.answers[c] == Rep(forest, c.1))
  }

  /** How far a question at `x` is from its root. */
  ghost function Distance(forest: Items, x: Item): nat {
    if x in forest then |Above(forest, x)| else if x == BLANK then 0 else |forest| + 1
  }

  lemma {:induction false} RepOfRep(forest: Items, x: Item)
    requires IsForest(forest)
    ensures Rep(forest, x) in forest || (Rep(forest, x) == BLANK && x !in forest)
    ensures Rep(forest, Rep(forest, x)) == Rep(forest, x)
  {
  }

  /** The parent in a kept entry leads to the same answer, and is the item itself exactly at
      an answer. */
  lemma {:induction false} ParentStep(forest: Items, asked: set<(nat, Item)>, items: Items, x: Item)
    requires IsForest(forest) && x in items && EntryKept(forest, asked, items, x)
    ensures var p := items[x].parent;
      && Rep(forest, p) == Rep(forest, x)
      && (p == x <==> Rep(forest, x) == x)
      && (p == x || p in forest || (p == BLANK && x !in forest))
      && (p != x ==> Distance(forest, p) < Distance(forest, x))
  {
    var p := items[x].parent;
    RepOfRep(forest, x);
    if x in forest {
      assert Grounded(forest, x);
      if p != x {
        AboveShrinks(forest, x, p);
        SubsetSize(Above(forest, p), Above(forest, x));
      }
    } else if p in forest {
      SubsetSize(Above(forest, p), forest.Keys);
    }
  }

  lemma {:induction false} FindStep(forest: Items, asked: set<(nat, Item)>, s: FindState, i: nat)
    requires FInv(forest, asked, s) && i < |s.msgs| && s.msgs[i].Find?
    ensures FInv(forest, asked, HandleMsg(s, i))
  {
    var m, s' := s.msgs[i], HandleMsg(s, i);
    WithoutKeeps(s.msgs, i);
    assert FindMsgOk(forest, asked, s.items, m);
    assert (m.asker, m.source) in asked && m.source in ItemsOf(asked);
    forall x | x in s'.items ensures EntryKept(forest, asked, s'.items, x) {
      assert x in s.items ==> EntryKept(forest, asked, s.items, x);
    }
    var p := s'.items[m.at].parent;
    ParentStep(forest, asked, s'.items, m.at);
    forall n | n in s'.msgs ensures FindMsgOk(forest, asked, s'.items, n) {
      if n in s.msgs {
        assert FindMsgOk(forest, asked, s.items, n);
      } else {
        assert n in FindSends(m, p);
      }
    }
    forall c | c in asked ensures Tracked(forest, s', c) {
      assert Tracked(forest, s, c);
      TrackedByFind(forest, s, i, c);
    }
  }

  lemma {:induction false} TrackedByFind(forest: Items, s: FindState, i: nat, c: (nat, Item))
    requires IsForest(forest) && i < |s.msgs| && s.msgs[i].Find? && Tracked(forest, s, c)
    ensures Tracked(forest, HandleMsg(s, i), c)
  {
    var m, s' := s.msgs[i], HandleMsg(s, i);
    var sends := FindSends(m, s'.items[m.at].parent);
    WithoutKeeps(s.msgs, i);
    if c !in s.answers {
      var n :| n in s.msgs && Replies(n, c);
      var n' := if n == m then sends[|sends| - 1] else n;
      assert n' in s'.msgs && Replies(n', c);
    }
    if !PointsAtRep(forest, s.items, c.1) {
      var n :| n in s.msgs && Adopts(n, c.1);
      var n' := if n == m then sends[0] else n;
      assert n' in s'.msgs && Adopts(n', c.1);
    }
  }

  lemma {:induction false} TrackedByAnswer(forest: Items, s: FindState, i: nat, c: (nat, Item))
    requires IsForest(forest) && i < |s.msgs| && !s.msgs[i].Find? && Tracked(forest, s, c)
    requires s.msgs[i].Adopt? ==> s.msgs[i].root == Rep(forest, s.msgs[i].source) && s.msgs[i].root in s.items
    ensures Tracked(forest, HandleMsg(s, i), c)
  {
    hide Rep;
    var m, s' := s.msgs[i], HandleMsg(s, i);
    WithoutKeeps(s.msgs, i);
    if c !in s'.answers {
      var n :| n in s.msgs && Replies(n, c);
      assert n in s'.msgs;
    }
    if !PointsAtRep(forest, s'.items, c.1) {
      var n :| n in s.msgs && Adopts(n, c.1);
      assert n in s'.msgs;
    }
  }

  lemma {:induction false} AnswerEntries(forest: Items, asked: set<(nat, Item)>, s: FindState, i: nat)
    requires FInv(forest, asked, s) && i < |s.msgs| && !s.msgs[i].Find?
    ensures var s' := HandleMsg(s, i);
      forall x :: x in s'.items ==> x in s.items && EntryKept(forest, asked, s'.items, x)
  {
    hide Rep;
    hide Tracked;
    var m, s' := s.msgs[i], HandleMsg(s, i);
    assert FindMsgOk(forest, asked, s.items, m);
    forall x | x in s'.items ensures x in s.items && EntryKept(forest, asked, s'.items, x) {
      assert EntryKept(forest, asked, s.items, x);
    }
  }

  lemma {:induction false} AnswerStep(forest: Items, asked: set<(nat, Item)>, s: FindState, i: nat)
    requires FInv(forest, asked, s) && i < |s.msgs| && !s.msgs[i].Find?
    ensures FInv(forest, asked, HandleMsg(s, i))
  {
    var m, s' := s.msgs[i], HandleMsg(s, i);
    WithoutKeeps(s.msgs, i);
    assert FindMsgOk(forest, asked, s.items, m);
    hide Rep;
    AnswerEntries(forest, asked, s, i);
    forall n | n in s'.msgs ensures FindMsgOk(forest, asked, s'.items, n) {
      assert FindMsgOk(forest, asked, s.items, n);
    }
    hide EntryKept;
    hide Tracked;
    forall c | c in asked ensures Tracked(forest, s', c) {
      assert Tracked(forest, s, c);
      TrackedByAnswer(forest, s, i, c);
    }
  }

  lemma {:induction false} AskStep(forest: Items, asked: set<(nat, Item)>, s: FindState, q: nat, x: Item)
    requires FInv(forest, asked, s)
    ensures FInv(forest, asked + {(q, x)}, FindNext(s, Ask(q, x)))
  {
    var m, s', asked' := Find(q, x, x), FindNext(s, Ask(q, x)), asked + {(q, x)};
    assert m in s'.msgs && Replies(m, (q, x)) && Adopts(m, x);
    assert ItemsOf(asked) <= ItemsOf(asked');
    forall y | y in s'.items ensures EntryKept(forest, asked', s'.items, y) {
      assert EntryKept(forest, asked, s.items, y);
    }
    forall n | n in s'.msgs ensures FindMsgOk(forest, asked', s'.items, n) {
      assert n == m || FindMsgOk(forest, asked, s.items, n);
    }
    forall c | c in asked' ensures Tracked(forest, s', c) {
      if c in asked {
        assert Tracked(forest, s, c);
        TrackedByMore(forest, s, m, c);
      }
    }
  }

  lemma {:induction false} TrackedByMore(forest: Items, s: FindState, m: FindMsg, c: (nat, Item))
    requires IsForest(forest) && Tracked(forest, s, c)
    ensures Tracked(forest, s.(msgs := s.msgs + [m]), c)
  {
    var s' := s.(msgs := s.msgs + [m]);
    assert forall n :: n in s.msgs ==> n in s'.msgs;
  }

  lemma {:induction false} AskedMore(labels: seq<FindLabel>, l: FindLabel)
    ensures Asked(labels + [l]) == Asked(labels) + if l.Ask? then {(l.asker, l.item)} else {}
  {
    assert forall k :: k in labels + [l] <==> k in labels || k == l;
  }

  /** The invariant holds in every run of `all_find` on a forest. */
  lemma {:induction false} FindsInv(forest: Items, labels: seq<FindLabel>)
    requires IsForest(forest)
    ensures FInv(forest, Asked(labels), Finds(forest, labels))
  {
    if labels != [] {
      var before, l := labels[..|labels| - 1], labels[|labels| - 1];
      assert labels == before + [l];
      AskedMore(before, l);
      FindsInv(forest, before);
      FindNextKeeps(forest, Asked(before), Finds(forest, before), l);
    }
  }

  lemma {:induction false} FindNextKeeps(forest: Items, asked: set<(nat, Item)>, s: FindState, l: FindLabel)
    requires FInv(forest, asked, s)
    ensures FInv(forest, asked + if l.Ask? then {(l.asker, l.item)} else {}, FindNext(s, l))
  {
    hide FInv;
    hide HandleMsg;
    match l
    case Ask(q, x) => AskStep(forest, asked, s, q, x);
    case Handle(i) =>
      assert asked + {} == asked;
      if i < |s.msgs| {
        if s.msgs[i].Find? {
          FindStep(forest, asked, s, i);
        } else {
          AnswerStep(forest, asked, s, i);
        }
      }
  }

  // ----- the answers -----

  /** With no message left, exactly the questions asked are answered, every answer is the
      representative, and the items asked for point straight at it. */
  lemma {:induction false} AnswersAreRoots(forest: Items, labels: seq<FindLabel>)
    requires IsForest(forest) && Finds(forest, labels).msgs == []
    ensures var s := Finds(forest, labels);
      && s.answers.Keys == Asked(labels)
      && forall q, x :: (q, x) in Asked(labels) ==>
        && s.answers[(q, x)] == Root(forest, if x in forest then x else BLANK)
        && x in s.items && s.items[x].parent == s.answers[(q, x)]
  {
    var s := Finds(forest, labels);
    FindsInv(forest, labels);
    forall c | c in Asked(labels)
      ensures c in s.answers && s.answers[c] == Rep(forest, c.1)
      ensures PointsAtRep(forest, s.items, c.1)
    {
      assert Tracked(forest, s, c);
    }
  }

  /** The answer about `x` is its own representative exactly when `x` had an entry, or is the
      item that a missing entry names. */
  lemma {:induction false} AnswerIsRootIff(forest: Items, labels: seq<FindLabel>, q: nat, x: Item)
    requires IsForest(forest) && Finds(forest, labels).msgs == [] && (q, x) in Asked(labels)
    ensures (q, x) in Finds(forest, labels).answers
    ensures Finds(forest, labels).answers[(q, x)] == Root(forest, x) <==> x in forest || x == BLANK
  {
    AnswersAreRoots(forest, labels);
    RepOfRep(forest, x);
  }

  /** One step up from `x` leads nearer to the same answer, or has reached it. */
  ghost predicate LeadsOn(forest: Items, items: Items, x: Item)
    requires IsForest(forest) && x in items
  {
    var p := items[x].parent;
    && Rep(forest, p) == Rep(forest, x)
    && (p != x ==> Distance(forest, p) < Distance(forest, x))
    && (p == x || p !in items ==> p == Rep(forest, x) && IsRoot(items, p))
  }

  lemma {:induction false} EntryLeadsOn(forest: Items, asked: set<(nat, Item)>, s: FindState, x: Item)
    requires FInv(forest, asked, s) && x in s.items
    ensures LeadsOn(forest, s.items, x)
  {
    assert EntryKept(forest, asked, s.items, x);
    ParentStep(forest, asked, s.items, x);
    var p := s.items[x].parent;
    if p !in s.items {
      RepOfRep(forest, p);
    }
  }

  lemma {:induction false} ClimbAll(forest: Items, items: Items, x: Item, n: nat)
    requires IsForest(forest) && x in items && n >= Distance(forest, x)
    requires forall y :: y in items ==> LeadsOn(forest, items, y)
    ensures Climb(items, x, n) == Rep(forest, x)
    decreases n
  {
    hide IsForest;
    hide Distance;
    hide Rep;
    var p := items[x].parent;
    assert LeadsOn(forest, items, x);
    if p == x {
      ClimbAtRoot(items, x, n);
    } else if n > 0 {
      assert Climb(items, x, n) == Climb(items, p, n - 1);
      if p in items {
        ClimbAll(forest, items, p, n - 1);
      } else {
        ClimbAtRoot(items, p, n - 1);
      }
    }
  }

  /** While `all_find` runs, whatever has been delivered, following parents from any entry
      leads to the representative, or to that of `BLANK` from an entry that was missing. */
  lemma {:induction false} ClimbReachesRep(forest: Items, labels: seq<FindLabel>, x: Item, n: nat)
    requires IsForest(forest) && x in Finds(forest, labels).items && n >= Distance(forest, x)
    ensures Climb(Finds(forest, labels).items, x, n) == Rep(forest, x)
  {
    var s := Finds(forest, labels);
    FindsInv(forest, labels);
    forall y | y in s.items ensures LeadsOn(forest, s.items, y) {
      EntryLeadsOn(forest, Asked(labels), s, y);
    }
    ClimbAll(forest, s.items, x, n);
  }

  // ----- what is left behind -----

  /** An item that may be asked for without harm: it has an entry, or is `BLANK`, or the entry
      that is created for it keeps the order of ranks and items that unions rely on. */
  ghost predicate Harmless(forest: Items, x: Item)
    requires IsForest(forest)
  {
    x in forest || x == BLANK || Below(forest, x, Root(forest, BLANK))
  }

  lemma {:induction false} RepAbove(forest: Items, x: Item)
    requires IsForest(forest) && x in forest && !IsRoot(forest, x)
    ensures var r := Root(forest, x); r in forest && Below(forest, x, r) && forest[x].est <= forest[r].rank
  {
    var p := forest[x].parent;
    assert Grounded(forest, x);
    assert Root(forest, p) == p || Below(forest, p, Root(forest, p));
  }

  lemma {:induction false} SameRanks(forest: Items, asked: set<(nat, Item)>, s: FindState)
    requires FInv(forest, asked, s)
    ensures forall x :: Look(s.items, x).rank == Look(forest, x).rank
  {
    forall x ensures Look(s.items, x).rank == Look(forest, x).rank {
      assert x in s.items ==> EntryKept(forest, asked, s.items, x);
    }
  }

  /** The entry of an item, once nothing is in flight, is grounded exactly when asking for it
      was harmless. */
  lemma {:induction false} EntryGrounded(forest: Items, asked: set<(nat, Item)>, s: FindState, x: Item)
    requires FInv(forest, asked, s) && s.msgs == [] && x in s.items
    ensures Grounded(s.items, x) <==> Harmless(forest, x)
  {
    assert EntryKept(forest, asked, s.items, x);
    SameRanks(forest, asked, s);
    RepOfRep(forest, x);
    if x in forest {
      assert Grounded(forest, x);
      if !IsRoot(forest, x) {
        RepAbove(forest, x);
      }
      assert forall y :: y in forest ==> y in s.items && s.items[y].rank == Look(s.items, y).rank == forest[y].rank;
    } else if x != BLANK {
      var c :| c in asked && c.1 == x;
      assert Tracked(forest, s, c);
      assert s.items[x] == Data(Rep(forest, x), 0, 0);
    }
  }

  /** `all_find` leaves a forest for the next unions exactly when every question was harmless. */
  lemma {:induction false} FindKeepsForestIff(forest: Items, labels: seq<FindLabel>)
    requires IsForest(forest) && Finds(forest, labels).msgs == []
    ensures IsForest(Finds(forest, labels).items) <==> forall q, x :: (q, x) in Asked(labels) ==> Harmless(forest, x)
  {
    var s, asked := Finds(forest, labels), Asked(labels);
    FindsInv(forest, labels);
    AnswersAreRoots(forest, labels);
    forall x ensures Grounded(s.items, x) <==> x !in s.items || Harmless(forest, x) {
      if x in s.items {
        EntryGrounded(forest, asked, s, x);
      }
    }
    forall x | x in s.items && x !in ItemsOf(asked) ensures Harmless(forest, x) {
      assert EntryKept(forest, asked, s.items, x);
    }
    if IsForest(s.items) {
      forall q, x | (q, x) in asked ensures Harmless(forest, x) {
        assert Grounded(s.items, x);
      }
    }
  }

  /** When all items asked for have entries, `all_find` only points them at their
      representatives: the step `Find` of the runs in module `UnionRun`. */
  lemma {:induction false} FindShortens(forest: Items, labels: seq<FindLabel>)
    requires IsForest(forest) && Finds(forest, labels).msgs == []
    requires ItemsOf(Asked(labels)) <= forest.Keys
    ensures Finds(forest, labels).items == Shortened(forest, ItemsOf(Asked(labels)))
  {
    var s, asked := Finds(forest, labels), Asked(labels);
    FindsInv(forest, labels);
    AnswersAreRoots(forest, labels);
    forall x ensures x in s.items <==> x in forest {
      assert x in s.items ==> EntryKept(forest, asked, s.items, x);
    }
    forall x | x in forest ensures s.items[x] == Shortened(forest, ItemsOf(asked))[x] {
      assert EntryKept(forest, asked, s.items, x);
      if x in ItemsOf(asked) {
        var c :| c in asked && c.1 == x;
        assert s.items[x].parent == Rep(forest, x);
      }
    }
  }

  /** Asking an empty disjoint set for 5 answers 0, merges 5 with 0, and leaves an entry below
      a parent of the same rank that is not above it. */
  lemma {:induction false} MissingItem()
    ensures IsForest(map[])
    ensures exists labels :: (
      var s := Finds(map[], labels);
      && Asked(labels) == {(0, 5)} && s.msgs == []
      && s.answers == map[(0, 5) := 0]
      && s.items == map[0 := Data(0, 0, 0), 5 := Data(0, 0, 0)]
      && !IsForest(s.items))
  {
    var ask := [Ask(0, 5)];
    var climb := ask + [Handle(0)];
    var root := climb + [Handle(0)];
    var adopt := root + [Handle(0)];
    var reply := adopt + [Handle(0)];
    assert Finds(map[], ask).msgs == [Find(0, 5, 5)];
    assert Finds(map[], climb) == FindState(map[5 := Data(0, 0, 0)], [Find(0, 5, 0)], map[]);
    var items := map[0 := Data(0, 0, 0), 5 := Data(0, 0, 0)];
    assert Finds(map[], root) == FindState(items, [Adopt(5, 0), Reply(0, 5, 0)], map[]);
    assert Finds(map[], adopt) == FindState(items, [Reply(0, 5, 0)], map[]);
    assert Finds(map[], reply) == FindState(items, [], map[(0, 5) := 0]);
    assert Ask(0, 5) == reply[0];
    hide Finds;
    hide FindNext;
    assert !Grounded(items, 5);
  }

  // ----- the messages run out -----

  /** What a message still causes: a question takes one more for every step up, and at the
      root becomes two messages. */
  ghost function Cost(forest: Items, m: FindMsg): nat {
    if m.Find? then Distance(forest, m.at) + 3 else 1
  }

  ghost function Costs(forest: Items, msgs: seq<FindMsg>): nat {
    if msgs == [] then 0 else Cost(forest, msgs[0]) + Costs(forest, msgs[1..])
  }

  lemma {:induction false} CostsAppend(forest: Items, a: seq<FindMsg>, b: seq<FindMsg>)
    ensures Costs(forest, a + b) == Costs(forest, a) + Costs(forest, b)
  {
    if a == [] {
      assert a + b == b;
    } else {
      CostsAppend(forest, a[1..], b);
      assert (a + b)[1..] == a[1..] + b;
    }
  }

  lemma {:induction false} CostsWithout(forest: Items, msgs: seq<FindMsg>, i: nat)
    requires i < |msgs|
    ensures Costs(forest, msgs) == Costs(forest, Without(msgs, i)) + Cost(forest, msgs[i])
  {
    CostsAppend(forest, msgs[..i], msgs[i + 1..]);
    CostsAppend(forest, msgs[..i], msgs[i..]);
    assert msgs == msgs[..i] + msgs[i..];
    assert msgs[i..][1..] == msgs[i + 1..];
  }

  lemma {:induction false} SendsCost(forest: Items, m: FindMsg, p: Item)
    requires m.Find? && (p == m.at || Distance(forest, p) < Distance(forest, m.at))
    ensures Costs(forest, FindSends(m, p)) < Cost(forest, m)
  {
    hide Distance;
    if p == m.at {
      CostsAppend(forest, [Adopt(m.source, p)], [Reply(m.asker, m.source, p)]);
      assert FindSends(m, p) == [Adopt(m.source, p)] + [Reply(m.asker, m.source, p)];
    }
  }

  lemma {:induction false} HandleDecreases(forest: Items, asked: set<(nat, Item)>, s: FindState, i: nat)
    requires FInv(forest, asked, s) && i < |s.msgs|
    ensures Costs(forest, HandleMsg(s, i).msgs) < Costs(forest, s.msgs)
  {
    var m, rest := s.msgs[i], Without(s.msgs, i);
    CostsWithout(forest, s.msgs, i);
    if m.Find? {
      FindStep(forest, asked, s, i);
      var p := HandleMsg(s, i).items[m.at].parent;
      ParentStep(forest, asked, HandleMsg(s, i).items, m.at);
      CostsAppend(forest, rest, FindSends(m, p));
      SendsCost(forest, m, p);
    }
  }

  ghost predicate HandlesAt(run: nat -> FindState, j: nat) {
    run(j).msgs != [] ==> exists i: nat :: i < |run(j).msgs| && run(j + 1) == HandleMsg(run(j), i)
  }

  ghost predicate Handled(labels: seq<FindLabel>, all: seq<FindLabel>) {
    labels <= all && forall l :: l in all[|labels|..] ==> l.Handle?
  }

  lemma {:induction false} FindDrainsFrom(forest: Items, labels: seq<FindLabel>, run: nat -> FindState, j: nat)
    returns (n: nat, all: seq<FindLabel>)
    requires IsForest(forest) && run(j) == Finds(forest, labels)
    requires forall k: nat :: HandlesAt(run, k)
    ensures run(n) == Finds(forest, all) && run(n).msgs == [] && Handled(labels, all)
    decreases Costs(forest, run(j).msgs)
  {
    hide FInv;
    hide HandleMsg;
    hide Costs;
    if run(j).msgs == [] {
      n, all := j, labels;
    } else {
      assert HandlesAt(run, j);
      var i: nat :| i < |run(j).msgs| && run(j + 1) == HandleMsg(run(j), i);
      FindsInv(forest, labels);
      HandleDecreases(forest, Asked(labels), run(j), i);
      n, all := FindDrainsFrom(forest, labels + [Handle(i)], run, j + 1);
    }
  }

  lemma {:induction false} HandledAsksTheSame(labels: seq<FindLabel>, all: seq<FindLabel>)
    requires Handled(labels, all)
    ensures Asked(all) == Asked(labels)
  {
    assert all == labels + all[|labels|..];
  }

  /** Every order of delivery ends `all_find` after finitely many handlers, with each question
      that was asked answered by its representative. */
  lemma {:induction false} EveryFindReturns(forest: Items, labels: seq<FindLabel>, run: nat -> FindState)
    requires IsForest(forest) && run(0) == Finds(forest, labels)
    requires forall k: nat :: HandlesAt(run, k)
    ensures exists n: nat ::
      && run(n).msgs == [] && run(n).answers.Keys == Asked(labels)
      && forall c :: c in Asked(labels) ==> run(n).answers[c] == Root(forest, if c.1 in forest then c.1 else BLANK)
  {
    var n, all := FindDrainsFrom(forest, labels, run, 0);
    HandledAsksTheSame(labels, all);
    AnswersAreRoots(forest, all);
    forall c | c in Asked(labels)
      ensures c in run(n).answers && run(n).answers[c] == Root(forest, if c.1 in forest then c.1 else BLANK)
    {
      assert (c.0, c.1) in Asked(all);
    }
  }

  /** After any run of unions that has come to rest, the answers that two ranks get about two
      items that have been seen are equal exactly when the unions connect the items. */
  lemma {:induction false} AnswersAreConnectivity(cfg: Config, unions: seq<Label>, finds: seq<FindLabel>,
                                                  q: nat, x: Item, r: nat, y: Item)
    requires cfg.Valid() && Run(cfg, unions).msgs == []
    requires Finds(Run(cfg, unions).items, finds).msgs == []
    requires (q, x) in Asked(finds) && (r, y) in Asked(finds)
    requires x in Run(cfg, unions).items && y in Run(cfg, unions).items
    ensures var answers := Finds(Run(cfg, unions).items, finds).answers;
      && (q, x) in answers && (r, y) in answers
      && (answers[(q, x)] == answers[(r, y)] <==>
            UnionConnectivity.Connected(Run(cfg, unions).unions, x, y))
  {
    var items := Run(cfg, unions).items;
    AnswersAreRoots(items, finds);
    UnionConnectivity.SharedRootIffConnected(cfg, unions, x, y);
  }

  // ----- the ranks -----

  /** The rank that runs the handler of a message. */
  function Destination(cfg: Config, m: FindMsg): nat {
    match m
    case Find(_, _, at) => cfg.owner(at)
    case Adopt(source, _) => cfg.owner(source)
    case Reply(asker, _, _) => asker
  }

  /** The map that rank `p` returns. */
  function ReturnedBy(answers: map<(nat, Item), Item>, p: nat): map<Item, Item> {
    map c | c in answers && c.0 == p :: c.1 := answers[c]
  }

  function HandledItems(items: Items, m: FindMsg): Items {
    match m
    case Find(_, _, at) => Fetch(items, at)
    case Adopt(source, root) => Adopted(items, source, root)
    case Reply(_, _, _) => items
  }

  function HandledMap(returned: map<Item, Item>, m: FindMsg): map<Item, Item> {
    if m.Reply? then returned[m.source := m.root] else returned
  }

  /** A delivery changes the entries and the returned map of the message's destination only. */
  lemma {:induction false} FindIsLocal(cfg: Config, s: FindState, i: nat, p: nat)
    requires i < |s.msgs|
    ensures var m, s' := s.msgs[i], HandleMsg(s, i);
      if p == Destination(cfg, m) then
        && Owned(cfg, s'.items, p) == HandledItems(Owned(cfg, s.items, p), m)
        && ReturnedBy(s'.answers, p) == HandledMap(ReturnedBy(s.answers, p), m)
      else
        && Owned(cfg, s'.items, p) == Owned(cfg, s.items, p)
        && ReturnedBy(s'.answers, p) == ReturnedBy(s.answers, p)
  {
    hide Owned;
    hide ReturnedBy;
    match s.msgs[i]
    case Find(_, _, at) => FetchIsLocal(cfg, s.items, at, p);
    case Adopt(source, root) =>
      FetchIsLocal(cfg, s.items, source, p);
      var fetched := Fetch(s.items, source);
      EntryIsLocal(cfg, fetched, source, fetched[source].(parent := root), p);
      assert cfg.owner(source) == p ==> Fetch(Owned(cfg, s.items, p), source)[source] == fetched[source];
    case Reply(asker, source, root) => AnswerIsLocal(s.answers, asker, source, root, p);
  }

  lemma {:induction false} EntryIsLocal(cfg: Config, items: Items, x: Item, d: Data, p: nat)
    ensures Owned(cfg, items[x := d], p) ==
            if p == cfg.owner(x) then Owned(cfg, items, p)[x := d] else Owned(cfg, items, p)
  {
  }

  lemma {:induction false} FetchIsLocal(cfg: Config, items: Items, x: Item, p: nat)
    ensures Owned(cfg, Fetch(items, x), p) ==
            if p == cfg.owner(x) then Fetch(Owned(cfg, items, p), x) else Owned(cfg, items, p)
    ensures p == cfg.owner(x) ==> Fetch(Owned(cfg, items, p), x)[x] == Fetch(items, x)[x]
  {
    if x !in items {
      EntryIsLocal(cfg, items, x, Data(BLANK, 0, 0), p);
    }
  }

  lemma {:induction false} AnswerIsLocal(answers: map<(nat, Item), Item>, q: nat, x: Item, root: Item, p: nat)
    ensures ReturnedBy(answers[(q, x) := root], p) ==
            if p == q then ReturnedBy(answers, p)[x := root] else ReturnedBy(answers, p)
  {
  }
}
