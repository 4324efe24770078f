/** `gather_topk`: every rank keeps the best `k` of its own items, and the tree reduction
    merges the lists; the result is the best `k` of all items. */
module TopK {
  import opened Sorting
  import opened AllReduce

  function Take<T>(k: nat, s: seq<T>): seq<T> {
    if |s| <= k then s else s[..k]
  }

  /** The best `k` of some items, best first. */
  function Best<T(!new)>(k: nat, s: seq<T>, leq: (T, T) -> bool): seq<T> {
    Take(k, Sort(s, leq))
  }

  /** What the reduction merges with. */
  function MergeBest<T(!new)>(k: nat, leq: (T, T) -> bool): (seq<T>, seq<T>) -> seq<T> {
    (a: seq<T>, b: seq<T>) => Best(k, a + b, leq)
  }

  function InsertAll<T(!new)>(b: seq<T>, s: seq<T>, leq: (T, T) -> bool): seq<T> {
    if b == [] then s else Insert(b[0], InsertAll(b[1..], s, leq), leq)
  }

  lemma {:induction false} SortInserts<T(!new)>(b: seq<T>, a: seq<T>, leq: (T, T) -> bool)
    ensures Sort(b + a, leq) == InsertAll(b, Sort(a, leq), leq)
  {
    if b == [] {
      assert b + a == a;
    } else {
      assert (b + a)[1..] == b[1..] + a;
      SortInserts(b[1..], a, leq);
    }
  }

  lemma {:induction false} TakeFirst<T>(k: nat, x: T, s: seq<T>)
    requires k > 0
    ensures Take(k, [x] + s) == [x] + Take(k - 1, s)
    ensures Take(k - 1, Take(k, s)) == Take(k - 1, s)
  {
  }

  /** The best after an insertion depend only on the best before it. */
  lemma {:induction false} TakeInsert<T(!new)>(k: nat, x: T, s: seq<T>, leq: (T, T) -> bool)
    ensures Take(k, Insert(x, s, leq)) == Take(k, Insert(x, Take(k, s), leq))
    decreases |s|
  {
    if k > 0 && s != [] {
      var y, rest := s[0], s[1..];
      assert s == [y] + rest;
      TakeFirst(k, y, rest);
      assert Take(k, s)[0] == y && Take(k, s)[1..] == Take(k - 1, rest);
      if leq(x, y) {
        TakeFirst(k, x, s);
        TakeFirst(k, x, Take(k, s));
      } else {
        TakeFirst(k, y, Insert(x, rest, leq));
        TakeFirst(k, y, Insert(x, Take(k - 1, rest), leq));
        TakeInsert(k - 1, x, rest, leq);
      }
    }
  }

  lemma {:induction false} TakeInsertAll<T(!new)>(k: nat, b: seq<T>, s: seq<T>, leq: (T, T) -> bool)
    ensures Take(k, InsertAll(b, s, leq)) == Take(k, InsertAll(b, Take(k, s), leq))
  {
    if b != [] {
      TakeInsertAll(k, b[1..], s, leq);
      TakeInsert(k, b[0], InsertAll(b[1..], s, leq), leq);
      TakeInsert(k, b[0], InsertAll(b[1..], Take(k, s), leq), leq);
    }
  }

  lemma {:induction false} SortedStays<T(!new)>(s: seq<T>, leq: (T, T) -> bool)
    requires TotalOrder(leq) && SortedBy(s, leq)
    ensures Sort(s, leq) == s
  {
    SortSorts(s, leq);
    SortCount(s, leq);
    SortedUnique(Sort(s, leq), s, leq);
  }

  /** Items that are not among the best of a part are not among the best of the whole. */
  lemma {:induction false} BestAbsorbs<T(!new)>(k: nat, a: seq<T>, b: seq<T>, leq: (T, T) -> bool)
    requires TotalOrder(leq)
    ensures Best(k, b + Best(k, a, leq), leq) == Best(k, b + a, leq)
    ensures Best(k, Best(k, a, leq) + b, leq) == Best(k, a + b, leq)
  {
    var best := Best(k, a, leq);
    SortSorts(a, leq);
    SortedStays(best, leq);
    SortInserts(b, best, leq);
    SortInserts(b, a, leq);
    TakeInsertAll(k, b, Sort(a, leq), leq);
    SwapParts(best, b, leq);
    SwapParts(a, b, leq);
  }

  lemma {:induction false} SwapParts<T(!new)>(a: seq<T>, b: seq<T>, leq: (T, T) -> bool)
    requires TotalOrder(leq)
    ensures Sort(a + b, leq) == Sort(b + a, leq)
  {
    forall x
      ensures Count(a + b, x) == Count(b + a, x)
    {
      CountAppend(a, b, x);
      CountAppend(b, a, x);
    }
    ArrivalOrder(a + b, b + a, leq);
  }

  lemma {:induction false} MergeLaws<T(!new)>(k: nat, leq: (T, T) -> bool)
    requires TotalOrder(leq)
    ensures Associative(MergeBest(k, leq)) && Commutative(MergeBest(k, leq))
  {
    var merge := MergeBest(k, leq);
    forall x, y, z
      ensures merge(merge(x, y), z) == merge(x, merge(y, z))
    {
      BestAbsorbs(k, x + y, z, leq);
      BestAbsorbs(k, y + z, x, leq);
      assert x + y + z == x + (y + z);
    }
    forall x, y
      ensures merge(x, y) == merge(y, x)
    {
      SwapParts(x, y, leq);
    }
  }

  function Concat<T>(lists: seq<seq<T>>): seq<T> {
    if lists == [] then [] else Concat(lists[..|lists| - 1]) + lists[|lists| - 1]
  }

  /** Merging the best of every rank gives the best of all. */
  lemma {:induction false} FoldIsBest<T(!new)>(k: nat, lists: seq<seq<T>>, locals: seq<seq<T>>, leq: (T, T) -> bool)
    requires TotalOrder(leq) && lists != [] && |locals| == |lists|
    requires forall r :: 0 <= r < |lists| ==> locals[r] == Best(k, lists[r], leq)
    ensures Fold(locals, MergeBest(k, leq), RankOrder(|lists|)) == Best(k, Concat(lists), leq)
  {
    var n := |lists| - 1;
    MergeLaws(k, leq);
    if n == 0 {
      assert RankOrder(1) == [0];
      assert Concat(lists) == lists[0];
    } else {
      FoldLast(locals, MergeBest(k, leq));
      FoldIsBest(k, lists[..n], locals[..n], leq);
      BestAbsorbs(k, Concat(lists[..n]), locals[n], leq);
      BestAbsorbs(k, lists[n], Concat(lists[..n]), leq);
    }
  }

  lemma {:induction false} ReductionIsBest<T(!new)>(k: nat, lists: seq<seq<T>>, locals: seq<seq<T>>,
                                                    leq: (T, T) -> bool)
    requires TotalOrder(leq) && lists != [] && |locals| == |lists|
    requires forall r :: 0 <= r < |lists| ==> locals[r] == Best(k, lists[r], leq)
    ensures Tree(locals, MergeBest(k, leq), 0) == Best(k, Concat(lists), leq)
  {
    MergeLaws(k, leq);
    TreeIsRankOrderFold(locals, MergeBest(k, leq));
    FoldIsBest(k, lists, locals, leq);
  }

  /** The loop over the items of one rank: push, sort, and drop the last when there are more
      than `k`. */
  method LocalTopK<T(!new)>(k: nat, items: seq<T>, leq: (T, T) -> bool) returns (best: seq<T>)
    requires TotalOrder(leq)
    ensures best == Best(k, items, leq)
  {
    best := [];
    var i := 0;
    while i < |items|
      invariant 0 <= i <= |items| && best == Best(k, items[..i], leq)
    {
      BestAbsorbs(k, items[..i], [items[i]], leq);
      assert items[..i + 1] == items[..i] + [items[i]];
      SortCount(items[..i], leq);
      best := best + [items[i]];
      SortCount(best, leq);
      best := Sort(best, leq);
      if |best| > k {
        best := best[..|best| - 1];
      }
      i := i + 1;
    }
    assert items[..i] == items;
  }

  /** The merge of two lists as the reduction carries it out. */
  method MergeLists<T(!new)>(k: nat, va: seq<T>, vb: seq<T>, leq: (T, T) -> bool) returns (out: seq<T>)
    ensures out == MergeBest(k, leq)(va, vb)
  {
    out := Sort(va + vb, leq);
    ghost var sorted := out;
    while |out| > k
      invariant |out| <= |sorted| && out == sorted[..|out|]
      invariant |out| >= k || out == sorted
      decreases |out|
    {
      out := out[..|out| - 1];
    }
  }

  /** All ranks together. */
  method GatherTopK<T(!new,0)>(k: nat, lists: seq<seq<T>>, leq: (T, T) -> bool) returns (best: seq<T>)
    requires TotalOrder(leq) && lists != []
    ensures best == Best(k, Concat(lists), leq)
  {
    var tmp := new seq<T>[|lists|](_ => []);
    var r := 0;
    while r < |lists|
      invariant 0 <= r <= |lists| && forall q :: 0 <= q < r ==> tmp[q] == Best(k, lists[q], leq)
    {
      var local := LocalTopK(k, lists[r], leq);
      tmp[r] := local;
      r := r + 1;
    }
    ghost var locals := tmp[..];
    MergeChildren(tmp, MergeBest(k, leq), locals);
    best := tmp[0];
    ReductionIsBest(k, lists, locals, leq);
  }

  /** The best `k` really are the best: none of the others comes before one of them. */
  lemma {:induction false} BestAreBest<T(!new)>(k: nat, items: seq<T>, leq: (T, T) -> bool)
    requires TotalOrder(leq)
    ensures SortedBy(Best(k, items, leq), leq) && |Best(k, items, leq)| == if |items| < k then |items| else k
    ensures forall x :: Count(Best(k, items, leq), x) <= Count(items, x)
    ensures forall x, y :: x in Best(k, items, leq) && Count(Best(k, items, leq), y) < Count(items, y) ==> leq(x, y)
  {
    var sorted, best := Sort(items, leq), Best(k, items, leq);
    SortSorts(items, leq);
    SortCount(items, leq);
    var rest := sorted[|best|..];
    assert sorted == best + rest;
    forall x
      ensures Count(items, x) == Count(best, x) + Count(rest, x)
    {
      CountAppend(best, rest, x);
      assert Count(sorted, x) == Count(items, x);
    }
    forall x, y | x in best && Count(best, y) < Count(items, y)
      ensures leq(x, y)
    {
      CountIn(rest, y);
      var i, j :| 0 <= i < |best| && best[i] == x && 0 <= j < |rest| && rest[j] == y;
      assert leq(sorted[i], sorted[|best| + j]);
    }
  }
}
