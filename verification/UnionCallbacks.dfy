/** The callbacks of `async_union_and_execute`: each call runs its callback exactly once, and
    it is told `true` exactly as often as two trees are linked. */
module UnionCallbacks {
  import opened Forest
  import opened UnionProtocol
  import opened UnionRun
  import opened Sequences

  ghost function Roots(items: Items): set<Item> {
    set x | x in items && IsRoot(items, x)
  }

  /** How many walks in flight serve the call `c`. */
  function Pending(msgs: seq<Msg>, c: (Item, Item)): nat {
    if msgs == [] then 0 else PendingOf(msgs[0], c) + Pending(msgs[1..], c)
  }

  function PendingOf(m: Msg, c: (Item, Item)): nat {
    if m.Walk? && m.call == Execute(c.0, c.1) then 1 else 0
  }

  lemma {:induction false} PendingAppend(s: seq<Msg>, t: seq<Msg>, c: (Item, Item))
    ensures Pending(s + t, c) == Pending(s, c) + Pending(t, c)
  {
    if s == [] {
      assert s + t == t;
    } else {
      PendingAppend(s[1..], t, c);
      assert (s + t)[1..] == s[1..] + t;
    }
  }

  lemma {:induction false} PendingWithout(s: seq<Msg>, i: nat, c: (Item, Item))
    requires i < |s|
    ensures Pending(s, c) == Pending(Without(s, i), c) + PendingOf(s[i], c)
  {
    PendingAppend(s[..i], s[i + 1..], c);
    PendingAppend(s[..i], s[i..], c);
    assert s == s[..i] + s[i..];
    assert s[i..][1..] == s[i + 1..];
  }

  /** A handler passes the call of its walk on, or the walk ends and its callback runs. */
  lemma {:induction false} HandleCalls(hash: Item -> nat, items: Items, cache: Cache, m: Msg, c: (Item, Item))
    requires CanHandle(items, cache, m)
    ensures var o := Handle(hash, items, cache, m);
      PendingOf(m, c) == Pending(o.out, c) + Callback(m, o.verdict, Linked)[c] + Callback(m, o.verdict, Same)[c]
  {
    var o := Handle(hash, items, cache, m);
    if m.Walk? {
      WalkOut(hash, items, cache, m);
      UnrollPending(o.out, c);
      assert forall n :: n in o.out ==> n == o.out[0] || n == o.out[|o.out| - 1];
      assert m.call.Execute? ==> (m.call == Execute(c.0, c.1) <==> (m.call.a, m.call.b) == c);
    }
  }

  lemma {:induction false} UnrollPending(s: seq<Msg>, c: (Item, Item))
    requires |s| <= 2
    ensures Pending(s, c) == (if |s| > 0 then PendingOf(s[0], c) else 0) + (if |s| > 1 then PendingOf(s[1], c) else 0)
  {
    if |s| == 2 {
      assert s[1..] == [s[1]] && [s[1]][1..] == [];
      assert Pending([s[1]], c) == PendingOf(s[1], c);
    } else if |s| == 1 {
      assert s[1..] == [];
    }
  }

  /** Every call is still walking or has run its callback, as often as it was issued. */
  predicate Balanced(s: State, c: (Item, Item)) {
    s.calls[c] == s.ranTrue[c] + s.ranFalse[c] + Pending(s.msgs, c)
  }

  ghost predicate CountInv(s: State) {
    && (forall c :: Balanced(s, c))
    && |s.items| == |Roots(s.items)| + |s.ranTrue| + s.plainLinks
  }

  lemma {:induction false} VisitCounts(items: Items, x: Item)
    ensures |Visit(items, x)| - |Roots(Visit(items, x))| == |items| - |Roots(items)|
  {
    if x !in items {
      assert Roots(Visit(items, x)) == Roots(items) + {x};
    }
  }

  /** Exactly the links reduce the number of roots, each by one. */
  lemma {:induction false} HandleRoots(hash: Item -> nat, items: Items, cache: Cache, m: Msg)
    requires CanHandle(items, cache, m)
    ensures var o := Handle(hash, items, cache, m);
      |Roots(items[m.dest := o.data])| == |Roots(items)| - if m.Walk? && o.verdict == Linked then 1 else 0
  {
    var o := Handle(hash, items, cache, m);
    var items' := items[m.dest := o.data];
    if m.Walk? {
      WalkEffect(hash, items, cache, m);
      if o.verdict == Linked {
        assert Roots(items) == Roots(items') + {m.dest};
      } else {
        assert items' == items;
      }
    } else {
      OtherEffect(hash, items, cache, m);
      assert Roots(items') == Roots(items);
    }
  }

  lemma {:induction false} DeliverCounts(cfg: Config, s: State, i: nat)
    requires Inv(cfg, s) && i < |s.msgs| && CountInv(s)
    ensures CountInv(DeliverMsg(cfg, s, i))
  {
    var m := s.msgs[i];
    var items := Visit(s.items, m.dest);
    var o := Outcomes(cfg, s, i);
    VisitKeeps(cfg, s, m);
    VisitCounts(s.items, m.dest);
    HandleRoots(cfg.hash, items, s.caches[cfg.owner(m.dest)], m);
    forall c ensures Balanced(DeliverMsg(cfg, s, i), c) {
      assert Balanced(s, c);
      HandleCalls(cfg.hash, items, s.caches[cfg.owner(m.dest)], m, c);
      PendingWithout(s.msgs, i, c);
      PendingAppend(Without(s.msgs, i), o.out, c);
    }
    assert |items[m.dest := o.data]| == |items|;
  }

  lemma {:induction false} UnionCounts(cfg: Config, s: State, q: nat, a: Item, b: Item, execute: bool)
    requires cfg.Valid() && q < cfg.ranks && CountInv(s)
    requires Inv(cfg, s)
    ensures CountInv(Next(cfg, s, Union(q, a, b, execute)))
  {
    var w := FirstWalk(cfg, s, q, a, b, if execute then Execute(a, b) else Plain);
    forall c ensures Balanced(Next(cfg, s, Union(q, a, b, execute)), c) {
      assert Balanced(s, c);
      PendingAppend(s.msgs, [w], c);
    }
  }

  lemma {:induction false} ShortenCounts(cfg: Config, s: State, l: Label)
    requires cfg.Valid() && Inv(cfg, s) && CountInv(s) && (l.FindAll? || l.Compress?)
    ensures CountInv(Next(cfg, s, l))
  {
    var s' := Next(cfg, s, l);
    NextShortens(cfg, s, l);
    forall x ensures x in Roots(s'.items) <==> x in Roots(s.items) {
      assert IsRoot(s'.items, x) <==> IsRoot(s.items, x);
    }
    assert Roots(s'.items) == Roots(s.items);
    forall c ensures Balanced(s', c) {
      assert Balanced(s, c);
    }
  }

  lemma {:induction false} RunCounts(cfg: Config, labels: seq<Label>)
    requires cfg.Valid()
    ensures CountInv(Run(cfg, labels))
  {
    if labels != [] {
      var before := labels[..|labels| - 1];
      var l := labels[|labels| - 1];
      var s := Run(cfg, before);
      RunCounts(cfg, before);
      match l
      case Union(q, a, b, execute) =>
        if q < cfg.ranks {
          UnionCounts(cfg, s, q, a, b, execute);
        }
      case Deliver(i) =>
        if i < |s.msgs| {
          DeliverCounts(cfg, s, i);
        }
      case _ =>
        ShortenCounts(cfg, s, l);
    }
  }

  // ----- runs that use only async_union_and_execute -----

  ghost predicate OnlyExecute(labels: seq<Label>) {
    forall l :: l in labels ==> (l.Union? ==> l.execute)
  }

  ghost predicate NoPlainWalk(s: State) {
    s.plainLinks == 0 && forall m :: m in s.msgs ==> (m.Walk? ==> m.call.Execute?)
  }

  /** A walk that is sent on belongs to the call of the walk that was handled. */
  lemma {:induction false} SameCall(hash: Item -> nat, items: Items, cache: Cache, m: Msg, n: Msg)
    requires CanHandle(items, cache, m) && n in Handle(hash, items, cache, m).out && n.Walk?
    ensures m.Walk? && n.call == m.call
  {
  }

  lemma {:induction false} DeliverNoPlain(cfg: Config, s: State, i: nat)
    requires Inv(cfg, s) && i < |s.msgs| && NoPlainWalk(s)
    ensures NoPlainWalk(DeliverMsg(cfg, s, i))
  {
    var m := s.msgs[i];
    VisitKeeps(cfg, s, m);
    assert m in s.msgs;
    forall n | n in DeliverMsg(cfg, s, i).msgs && n.Walk? ensures n.call.Execute? {
      if n in Outcomes(cfg, s, i).out {
        SameCall(cfg.hash, Visit(s.items, m.dest), s.caches[cfg.owner(m.dest)], m, n);
      } else {
        assert n in s.msgs;
      }
    }
  }

  lemma {:induction false} OnlyExecuteRun(cfg: Config, labels: seq<Label>)
    requires cfg.Valid() && OnlyExecute(labels)
    ensures NoPlainWalk(Run(cfg, labels))
  {
    if labels != [] {
      var before := labels[..|labels| - 1];
      var l := labels[|labels| - 1];
      OnlyExecuteRun(cfg, before);
      var s := Run(cfg, before);
      assert l in labels;
      match l
      case Union(q, a, b, execute) =>
      case FindAll(_) =>
      case Compress =>
      case Deliver(i) =>
        if i < |s.msgs| {
          hide DeliverMsg;
          DeliverNoPlain(cfg, s, i);
        }
    }
  }

  /** In every reachable state the callbacks told `true`, together with the links of plain
      unions, are as many as the items that are not roots; every callback that ran belongs to
      a call, and at quiescence every call has run its callback exactly once. */
  lemma {:induction false} CallbacksCountLinks(cfg: Config, labels: seq<Label>)
    requires cfg.Valid()
    ensures var s := Run(cfg, labels);
      && |s.ranTrue| + s.plainLinks == |s.items| - |Roots(s.items)|
      && (OnlyExecute(labels) ==> |s.ranTrue| == |s.items| - |Roots(s.items)|)
      && s.ranTrue + s.ranFalse <= s.calls
      && (s.msgs == [] ==> s.ranTrue + s.ranFalse == s.calls)
  {
    var s := Run(cfg, labels);
    RunCounts(cfg, labels);
    forall c
      ensures (s.ranTrue + s.ranFalse)[c] <= s.calls[c]
      ensures s.msgs == [] ==> (s.ranTrue + s.ranFalse)[c] == s.calls[c]
    {
      assert Balanced(s, c);
    }
    if OnlyExecute(labels) {
      OnlyExecuteRun(cfg, labels);
    }
  }
}
