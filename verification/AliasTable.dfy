/** The distributed alias table, over exact reals: `balance_weight` moves items until every
    rank holds the same weight, and `build_local_alias_table` is Vose's construction. */
module AliasTable {
  datatype Weighted = Weighted(id: int, weight: real)

  /** All items, or those of one identifier. */
  datatype Pick = All | Only(id: int)

  predicate Picks(pick: Pick, id: int) {
    pick.All? || pick.id == id
  }

  function Weight(items: seq<Weighted>, pick: Pick): real {
    if items == [] then 0.0
    else (if Picks(pick, items[0].id) then items[0].weight else 0.0) + Weight(items[1..], pick)
  }

  ghost predicate NonNegative(items: seq<Weighted>) {
    forall i :: 0 <= i < |items| ==> items[i].weight >= 0.0
  }

  lemma {:induction false} WeightAppend(a: seq<Weighted>, b: seq<Weighted>, pick: Pick)
    ensures Weight(a + b, pick) == Weight(a, pick) + Weight(b, pick)
  {
    if a == [] {
      assert a + b == b;
    } else {
      assert (a + b)[1..] == a[1..] + b;
      WeightAppend(a[1..], b, pick);
    }
  }

  lemma {:induction false} WeightPush(items: seq<Weighted>, item: Weighted, pick: Pick)
    ensures Weight(items + [item], pick) == Weight(items, pick) + if Picks(pick, item.id) then item.weight else 0.0
  {
    WeightAppend(items, [item], pick);
  }

  lemma {:induction false} WeightNonNegative(items: seq<Weighted>, pick: Pick)
    requires NonNegative(items)
    ensures 0.0 <= Weight(items, pick) <= Weight(items, All)
  {
    if items != [] {
      WeightNonNegative(items[1..], pick);
    }
  }

  // ----- balancing -----

  /** Where the share of rank `d` begins on the line of all weights: at `d * target`. */
  function Edge(d: nat, target: real): real {
    if d == 0 then 0.0 else Edge(d - 1, target) + target
  }

  lemma {:induction false} EdgeIsProduct(d: nat, target: real)
    ensures Edge(d, target) == (d as real) * target
  {
    if d > 0 {
      EdgeIsProduct(d - 1, target);
      assert (d as real) * target == ((d - 1) as real) * target + target;
    }
  }

  lemma {:induction false} EdgeMonotone(d: nat, e: nat, target: real)
    requires d <= e && target > 0.0
    ensures Edge(d, target) <= Edge(e, target)
    decreases e - d
  {
    if d < e {
      EdgeMonotone(d, e - 1, target);
    }
  }

  function MaxReal(a: real, b: real): real {
    if a > b then a else b
  }

  function MinReal(a: real, b: real): real {
    if a < b then a else b
  }

  /** How much of the line between `lo` and `hi` belongs to rank `d`. */
  function Share(lo: real, hi: real, d: nat, target: real): real {
    MaxReal(0.0, MinReal(hi, Edge(d + 1, target)) - MaxReal(lo, Edge(d, target)))
  }

  datatype Send = Send(dest: nat, items: seq<Weighted>)

  /** What the messages bring to rank `d`. */
  function WeightTo(sends: seq<Send>, d: nat, pick: Pick): real {
    if sends == [] then 0.0
    else
      WeightTo(sends[..|sends| - 1], d, pick) +
      if sends[|sends| - 1].dest == d then Weight(sends[|sends| - 1].items, pick) else 0.0
  }

  function WeightSent(sends: seq<Send>, pick: Pick): real {
    if sends == [] then 0.0
    else WeightSent(sends[..|sends| - 1], pick) + Weight(sends[|sends| - 1].items, pick)
  }

  ghost predicate SendsOk(sends: seq<Send>, ranks: nat) {
    forall i :: 0 <= i < |sends| ==> 0 <= sends[i].dest < ranks && NonNegative(sends[i].items)
  }

  /** What has been taken off the list so far, the line from `lo` to `at`, has been dealt out:
      the shares before `dest` are sent and that of `dest` waits in `items`. */
  ghost predicate Dealt(sends: seq<Send>, items: seq<Weighted>, lo: real, at: real, dest: nat, target: real,
                        ranks: nat) {
    && Weight(items, All) == at - MaxReal(lo, Edge(dest, target))
    && forall d: nat :: d < ranks ==> DealtTo(sends, items, lo, at, dest, target, d)
  }

  ghost predicate DealtTo(sends: seq<Send>, items: seq<Weighted>, lo: real, at: real, dest: nat, target: real, d: nat) {
    WeightTo(sends, d, All) + (if d == dest then Weight(items, All) else 0.0) == Share(lo, at, d, target)
  }

  /** Every identifier has all its weight on the way or still on the list. */
  ghost predicate Conserved(list: seq<Weighted>, items: seq<Weighted>, sends: seq<Send>, original: seq<Weighted>) {
    forall pick :: WeightSent(sends, pick) + Weight(items, pick) + Weight(list, pick) == Weight(original, pick)
  }

  /** Rank `dest` is not full yet: the item goes to it whole. */
  lemma {:induction false} DealWhole(sends: seq<Send>, items: seq<Weighted>, lo: real, at: real, dest: nat,
                                     target: real, ranks: nat, item: Weighted)
    requires target > 0.0 && item.weight >= 0.0 && lo <= at
    requires Edge(dest, target) <= at && at + item.weight < Edge(dest + 1, target)
    requires Dealt(sends, items, lo, at, dest, target, ranks)
    ensures Dealt(sends, items + [item], lo, at + item.weight, dest, target, ranks)
  {
    WeightPush(items, item, All);
    var items', at' := items + [item], at + item.weight;
    forall d: nat | d < ranks
      ensures DealtTo(sends, items', lo, at', dest, target, d)
    {
      assert DealtTo(sends, items, lo, at, dest, target, d);
      if d < dest {
        EdgeMonotone(d + 1, dest, target);
      } else if d > dest {
        EdgeMonotone(dest + 1, d, target);
      }
    }
  }

  /** Rank `dest` is filled up and its items are sent; what remains of the item waits for the
      next rank, or goes back on the list. */
  lemma {:induction false} DealFull(sends: seq<Send>, items: seq<Weighted>, lo: real, at: real, dest: nat,
                                    target: real, ranks: nat, id: int, rest: real, items': seq<Weighted>)
    requires target > 0.0 && lo <= at && dest < ranks && 0.0 <= rest < target
    requires Edge(dest, target) <= at < Edge(dest + 1, target)
    requires Dealt(sends, items, lo, at, dest, target, ranks)
    requires Weight(items', All) == rest
    ensures Dealt(sends + [Send(dest, items + [Weighted(id, Edge(dest + 1, target) - at)])], items',
                  lo, Edge(dest + 1, target) + rest, dest + 1, target, ranks)
  {
    var s := Send(dest, items + [Weighted(id, Edge(dest + 1, target) - at)]);
    WeightPush(items, Weighted(id, Edge(dest + 1, target) - at), All);
    var sends', at', dest' := sends + [s], Edge(dest + 1, target) + rest, dest + 1;
    forall d: nat | d < ranks
      ensures DealtTo(sends', items', lo, at', dest', target, d)
    {
      assert DealtTo(sends, items, lo, at, dest, target, d);
      if d < dest {
        EdgeMonotone(d + 1, dest, target);
      } else if d > dest + 1 {
        EdgeMonotone(dest + 2, d, target);
        EdgeMonotone(dest + 1, d, target);
      } else if d == dest + 1 {
        EdgeMonotone(dest + 1, d, target);
      }
    }
  }

  lemma {:induction false} ConserveWhole(item: Weighted, list: seq<Weighted>, items: seq<Weighted>,
                                         sends: seq<Send>, original: seq<Weighted>)
    requires Conserved([item] + list, items, sends, original)
    ensures Conserved(list, items + [item], sends, original)
  {
    forall pick
      ensures WeightSent(sends, pick) + Weight(items + [item], pick) + Weight(list, pick) == Weight(original, pick)
    {
      WeightPush(items, item, pick);
      WeightAppend([item], list, pick);
      assert WeightSent(sends, pick) + Weight(items, pick) + Weight([item] + list, pick) == Weight(original, pick);
    }
  }

  /** An item is cut in two: one part is sent, the other waits or returns to the list. */
  lemma {:induction false} ConserveCut(item: Weighted, part: real, list: seq<Weighted>, items: seq<Weighted>, dest: nat,
                                       sends: seq<Send>, original: seq<Weighted>,
                                       list': seq<Weighted>, items': seq<Weighted>)
    requires Conserved([item] + list, items, sends, original)
    requires forall pick :: Weight(items', pick) + Weight(list', pick)
                         == Weight(list, pick) + if Picks(pick, item.id) then item.weight - part else 0.0
    ensures Conserved(list', items', sends + [Send(dest, items + [Weighted(item.id, part)])], original)
  {
    var s := Send(dest, items + [Weighted(item.id, part)]);
    var sends' := sends + [s];
    forall pick
      ensures WeightSent(sends', pick) + Weight(items', pick) + Weight(list', pick) == Weight(original, pick)
    {
      WeightPush(items, Weighted(item.id, part), pick);
      WeightAppend([item], list, pick);
      assert WeightSent(sends, pick) + Weight(items, pick) + Weight([item] + list, pick) == Weight(original, pick);
    }
  }

  /** What remains of a cut item goes back on the list or waits for the next rank. */
  lemma {:induction false} RestKept(list: seq<Weighted>, id: int, rest: real, list': seq<Weighted>,
                                    items': seq<Weighted>)
    requires (list' == list + [Weighted(id, rest)] && items' == [])
          || (list' == list && items' == [Weighted(id, rest)]) || (list' == list && items' == [] && rest == 0.0)
    ensures forall pick :: Weight(items', pick) + Weight(list', pick)
                        == Weight(list, pick) + if Picks(pick, id) then rest else 0.0
  {
    forall pick
      ensures Weight(items', pick) + Weight(list', pick) == Weight(list, pick) + if Picks(pick, id) then rest else 0.0
    {
      WeightPush(list, Weighted(id, rest), pick);
    }
  }

  lemma {:induction false} NotPastLast(dest: nat, ranks: nat, target: real)
    requires target > 0.0 && Edge(dest + 1, target) <= Edge(ranks, target)
    ensures dest < ranks
  {
    if dest >= ranks {
      EdgeMonotone(ranks, dest, target);
    }
  }

  lemma {:induction false} FloorBetween(x: real, target: real)
    requires target > 0.0 && x >= 0.0
    ensures (x / target).Floor >= 0
    ensures Edge((x / target).Floor, target) <= x < Edge((x / target).Floor, target) + target
  {
    assert (x / target) * target == x;
    InShare(x, x / target, (x / target).Floor, target);
  }

  lemma {:induction false} InShare(x: real, q: real, d: nat, target: real)
    requires target > 0.0 && x == q * target && d as real <= q < d as real + 1.0
    ensures Edge(d, target) <= x < Edge(d, target) + target
  {
    NotBelow(x, q, d as real, target);
    NotAbove(x, q, d as real, target);
    EdgeIsProduct(d, target);
  }

  lemma {:induction false} NotBelow(x: real, q: real, d: real, target: real)
    requires x == q * target && target > 0.0 && d <= q
    ensures d * target <= x
  {
    if d < q {
      LessProduct(d, q, target);
    }
  }

  lemma {:induction false} NotAbove(x: real, q: real, d: real, target: real)
    requires x == q * target && target > 0.0 && q < d + 1.0
    ensures x < d * target + target
  {
    LessProduct(q, d + 1.0, target);
    OneMoreTarget(d, d + 1.0, target);
  }

  lemma {:induction false} LessProduct(a: real, b: real, c: real)
    requires a < b && c > 0.0
    ensures a * c < b * c
  {
    var r := b - a;
    ProductSign(r, c);
    Distribute(r, a, c);
    SameProduct(r + a, b, c);
  }

  lemma {:induction false} SameProduct(a: real, b: real, c: real)
    requires a == b
    ensures a * c == b * c
  {
  }

  lemma {:induction false} OneMoreTarget(d: real, e: real, target: real)
    requires e == d + 1.0
    ensures e * target == d * target + target
  {
  }

  lemma {:induction false} Distribute(a: real, b: real, c: real)
    ensures (a + b) * c == a * c + b * c
  {
  }

  lemma {:induction false} ProductSign(a: real, b: real)
    requires a >= 0.0 && b > 0.0
    ensures a * b >= 0.0 && (a > 0.0 ==> a * b > 0.0)
  {
  }

  /** The first rank that gets weight from the ranks that start at `prefix`, and what it has
      already got from the ranks before: a division with remainder over the reals. */
  method FirstDest(prefix: real, target: real, ranks: nat) returns (dest: nat, curr: real)
    requires target > 0.0 && 0.0 <= prefix <= Edge(ranks, target)
    ensures dest <= ranks && 0.0 <= curr < target && prefix == Edge(dest, target) + curr
  {
    FloorBetween(prefix, target);
    dest := (prefix / target).Floor;
    curr := prefix - dest as real * target;
    EdgeIsProduct(dest, target);
    if dest > ranks {
      EdgeMonotone(ranks + 1, dest, target);
    }
  }

  /** What the loop of `balance_weight` keeps: `list` is what is still to be looked at. */
  ghost predicate Balancing(list: seq<Weighted>, items: seq<Weighted>, sends: seq<Send>, lo: real, at: real, end: real,
                            dest: nat, curr: real, target: real, ranks: nat, local: seq<Weighted>) {
    && NonNegative(list) && NonNegative(items) && SendsOk(sends, ranks)
    && dest <= ranks && target > 0.0 && end <= Edge(ranks, target)
    && 0.0 <= curr < target && at == Edge(dest, target) + curr && lo <= at
    && at + Weight(list, All) == end
    && Dealt(sends, items, lo, at, dest, target, ranks)
    && Conserved(list, items, sends, local)
  }

  lemma {:induction false} WholeStep(item: Weighted, list: seq<Weighted>, items: seq<Weighted>, sends: seq<Send>,
                                     lo: real, at: real, end: real, dest: nat, curr: real, target: real, ranks: nat,
                                     local: seq<Weighted>)
    requires Balancing([item] + list, items, sends, lo, at, end, dest, curr, target, ranks, local)
    requires curr + item.weight < target
    ensures Balancing(list, items + [item], sends, lo, at + item.weight, end, dest, curr + item.weight, target, ranks,
                      local)
  {
    assert ([item] + list)[0] == item;
    forall i | 0 <= i < |list|
      ensures list[i].weight >= 0.0
    {
      assert ([item] + list)[i + 1] == list[i];
    }
    WeightAppend([item], list, All);
    ConserveWhole(item, list, items, sends, local);
    DealWhole(sends, items, lo, at, dest, target, ranks, item);
  }

  /** Filling up a rank never needs a rank past the last one. */
  lemma {:induction false} CutStep(item: Weighted, list: seq<Weighted>, items: seq<Weighted>, sends: seq<Send>,
                                   lo: real, at: real, end: real, dest: nat, curr: real, target: real, ranks: nat,
                                   local: seq<Weighted>, list': seq<Weighted>, items': seq<Weighted>,
                                   sends': seq<Send>, curr': real)
    requires Balancing([item] + list, items, sends, lo, at, end, dest, curr, target, ranks, local)
    requires curr + item.weight >= target
    requires var rest := Weighted(item.id, curr + item.weight - target);
      || (rest.weight >= target && list' == list + [rest] && items' == [] && curr' == 0.0)
      || (0.0 != rest.weight < target && list' == list && items' == [rest] && curr' == rest.weight)
      || (0.0 == rest.weight < target && list' == list && items' == [] && curr' == 0.0)
    requires sends' == sends + [Send(dest, items + [Weighted(item.id, target - curr)])]
    ensures dest < ranks
    ensures Balancing(list', items', sends', lo, Edge(dest + 1, target) + curr', end, dest + 1, curr', target, ranks,
                      local)
  {
    assert ([item] + list)[0] == item;
    forall i | 0 <= i < |list|
      ensures list[i].weight >= 0.0
    {
      assert ([item] + list)[i + 1] == list[i];
    }
    WeightAppend([item], list, All);
    WeightNonNegative(list, All);
    NotPastLast(dest, ranks, target);
    RestKept(list, item.id, curr + item.weight - target, list', items');
    ConserveCut(item, target - curr, list, items, dest, sends, local, list', items');
    DealFull(sends, items, lo, at, dest, target, ranks, item.id, curr', items');
    CutWeight(list, Weighted(item.id, curr + item.weight - target));
  }

  lemma {:induction false} RoomLeft(item: Weighted, list: seq<Weighted>, items: seq<Weighted>, sends: seq<Send>,
                                    lo: real, at: real, end: real, dest: nat, curr: real, target: real, ranks: nat,
                                    local: seq<Weighted>)
    requires Balancing([item] + list, items, sends, lo, at, end, dest, curr, target, ranks, local)
    requires curr + item.weight >= target
    ensures dest < ranks
  {
    assert ([item] + list)[0] == item;
    forall i | 0 <= i < |list|
      ensures list[i].weight >= 0.0
    {
      assert ([item] + list)[i + 1] == list[i];
    }
    WeightAppend([item], list, All);
    WeightNonNegative(list, All);
    NotPastLast(dest, ranks, target);
  }

  lemma {:induction false} CutWeight(list: seq<Weighted>, rest: Weighted)
    ensures Weight(list + [rest], All) == Weight(list, All) + rest.weight
  {
    WeightPush(list, rest, All);
  }

  /** After the loop the items that wait are sent, or there is nothing left of them to send. */
  lemma {:induction false} LastShare(sends: seq<Send>, items: seq<Weighted>, lo: real, at: real, end: real, dest: nat,
                                     curr: real, target: real, ranks: nat, local: seq<Weighted>, sends': seq<Send>)
    requires Balancing([], items, sends, lo, at, end, dest, curr, target, ranks, local)
    requires sends' == if |items| > 0 && dest < ranks then sends + [Send(dest, items)] else sends
    ensures forall d: nat :: d < ranks ==> WeightTo(sends', d, All) == Share(lo, end, d, target)
    ensures forall pick :: WeightSent(sends', pick) == Weight(local, pick)
    ensures SendsOk(sends', ranks)
  {
    assert at == end;
    forall d: nat | d < ranks
      ensures WeightTo(sends', d, All) == Share(lo, end, d, target)
    {
      assert DealtTo(sends, items, lo, end, dest, target, d);
    }
    forall pick
      ensures WeightSent(sends', pick) == Weight(local, pick)
    {
      assert WeightSent(sends, pick) + Weight(items, pick) + Weight([], pick) == Weight(local, pick);
      WeightNonNegative(items, pick);
    }
  }

  /** The branch of the loop that fills up rank `dest` with a part of the item. */
  method FillRank(item: Weighted, list: seq<Weighted>, next: nat, items: seq<Weighted>, sends: seq<Send>, dest: nat,
                  curr: real, target: real, ranks: nat, ghost lo: real, ghost at: real, ghost end: real,
                  ghost local: seq<Weighted>)
    returns (list': seq<Weighted>, items': seq<Weighted>, sends': seq<Send>, curr': real)
    requires next <= |list| && curr + item.weight >= target
    requires Balancing([item] + list[next..], items, sends, lo, at, end, dest, curr, target, ranks, local)
    ensures dest < ranks && next <= |list'|
    ensures Balancing(list'[next..], items', sends', lo, Edge(dest + 1, target) + curr', end, dest + 1, curr', target,
                      ranks, local)
  {
    var remaining := curr + item.weight - target;
    var part := item.weight - remaining;
    assert part == target - curr;
    RoomLeft(item, list[next..], items, sends, lo, at, end, dest, curr, target, ranks, local);
    sends' := sends;
    if dest < ranks {
      sends' := sends + [Send(dest, items + [Weighted(item.id, part)])];
    }
    list' := list;
    if remaining >= target {
      list' := list + [Weighted(item.id, remaining)];
      curr' := 0.0;
    } else {
      curr' := remaining;
    }
    items' := [];
    if curr' != 0.0 {
      items' := [Weighted(item.id, curr')];
    }
    assert list'[next..] == if remaining >= target then list[next..] + [Weighted(item.id, remaining)] else list[next..];
    CutStep(item, list[next..], items, sends, lo, at, end, dest, curr, target, ranks, local, list'[next..], items',
            sends', curr');
  }

  /** The loop over the local items, which may grow on the way. */
  method DealItems(local: seq<Weighted>, firstDest: nat, firstCurr: real, target: real, ranks: nat, ghost lo: real,
                   ghost end: real)
    returns (items: seq<Weighted>, sends: seq<Send>, dest: nat, curr: real)
    requires Balancing(local, [], [], lo, lo, end, firstDest, firstCurr, target, ranks, local)
    ensures Balancing([], items, sends, lo, end, end, dest, curr, target, ranks, local)
  {
    dest, curr := firstDest, firstCurr;
    ghost var at := lo;
    var list := local;
    items, sends := [], [];
    assert list[0..] == local;
    var i := 0;
    while i < |list|
      invariant 0 <= i <= |list| && dest <= ranks
      invariant Balancing(list[i..], items, sends, lo, at, end, dest, curr, target, ranks, local)
      decreases ranks - dest, |list| - i
    {
      var item := list[i];
      assert list[i..] == [item] + list[i + 1..];
      if curr + item.weight >= target {
        list, items, sends, curr :=
          FillRank(item, list, i + 1, items, sends, dest, curr, target, ranks, lo, at, end, local);
        at := Edge(dest + 1, target) + curr;
        dest := dest + 1;
      } else {
        WholeStep(item, list[i + 1..], items, sends, lo, at, end, dest, curr, target, ranks, local);
        items := items + [item];
        curr := curr + item.weight;
        at := at + item.weight;
      }
      i := i + 1;
    }
    assert list[i..] == [];
  }

  /** The part of `balance_weight` that one rank computes: it sends every rank exactly the
      part of its own stretch of the line that belongs there, and loses nothing on the way. */
  method BalanceRank(local: seq<Weighted>, prefix: real, target: real, ranks: nat) returns (sends: seq<Send>)
    requires target > 0.0 && NonNegative(local)
    requires 0.0 <= prefix && prefix + Weight(local, All) <= Edge(ranks, target)
    ensures SendsOk(sends, ranks)
    ensures forall d: nat :: d < ranks ==>
      WeightTo(sends, d, All) == Share(prefix, prefix + Weight(local, All), d, target)
    ensures forall pick :: WeightSent(sends, pick) == Weight(local, pick)
  {
    WeightNonNegative(local, All);
    var dest, curr := FirstDest(prefix, target, ranks);
    ghost var end := prefix + Weight(local, All);
    var items;
    items, sends, dest, curr := DealItems(local, dest, curr, target, ranks, prefix, end);
    ghost var before := sends;
    if |items| > 0 && dest < ranks {
      sends := sends + [Send(dest, items)];
    }
    LastShare(before, items, prefix, end, end, dest, curr, target, ranks, local, sends);
  }

  lemma {:induction false} EqualShares(total: real, ranks: nat)
    requires ranks > 0 && total > 0.0
    ensures total / ranks as real > 0.0 && Edge(ranks, total / ranks as real) == total
  {
    EdgeIsProduct(ranks, total / ranks as real);
  }

  // ----- all ranks together -----

  function Prefix(lists: seq<seq<Weighted>>, pick: Pick): real {
    if lists == [] then 0.0 else Prefix(lists[..|lists| - 1], pick) + Weight(lists[|lists| - 1], pick)
  }

  lemma {:induction false} PrefixUpdate(lists: seq<seq<Weighted>>, i: nat, more: seq<Weighted>, pick: Pick)
    requires i < |lists|
    ensures Prefix(lists[i := lists[i] + more], pick) == Prefix(lists, pick) + Weight(more, pick)
  {
    var n := |lists| - 1;
    var lists' := lists[i := lists[i] + more];
    if i == n {
      assert lists'[..n] == lists[..n];
      WeightAppend(lists[i], more, pick);
    } else {
      assert lists'[..n] == lists[..n][i := lists[i] + more];
      PrefixUpdate(lists[..n], i, more, pick);
    }
  }

  lemma {:induction false} PrefixNext(lists: seq<seq<Weighted>>, r: nat, pick: Pick)
    requires r < |lists|
    ensures Prefix(lists[..r + 1], pick) == Prefix(lists[..r], pick) + Weight(lists[r], pick)
  {
    assert lists[..r + 1][..r] == lists[..r];
  }

  ghost predicate AllNonNegative(lists: seq<seq<Weighted>>) {
    forall i :: 0 <= i < |lists| ==> NonNegative(lists[i])
  }

  lemma {:induction false} PrefixMonotone(lists: seq<seq<Weighted>>, r: nat)
    requires r <= |lists| && AllNonNegative(lists)
    ensures 0.0 <= Prefix(lists[..r], All) <= Prefix(lists, All)
    decreases |lists|
  {
    if r == |lists| {
      assert lists[..r] == lists;
      if r > 0 {
        PrefixMonotone(lists[..r - 1], r - 1);
        assert lists[..r - 1][..r - 1] == lists[..r - 1];
        WeightNonNegative(lists[r - 1], All);
      }
    } else {
      var n := |lists| - 1;
      PrefixMonotone(lists[..n], r);
      assert lists[..n][..r] == lists[..r];
      WeightNonNegative(lists[n], All);
    }
  }

  /** Every message appends its items to the new list of the rank it is sent to. */
  method Deliver(lists: seq<seq<Weighted>>, sends: seq<Send>) returns (lists': seq<seq<Weighted>>)
    requires SendsOk(sends, |lists|) && AllNonNegative(lists)
    ensures |lists'| == |lists| && AllNonNegative(lists')
    ensures forall d: nat :: d < |lists| ==> Weight(lists'[d], All) == Weight(lists[d], All) + WeightTo(sends, d, All)
    ensures forall pick :: Prefix(lists', pick) == Prefix(lists, pick) + WeightSent(sends, pick)
  {
    lists' := lists;
    var k := 0;
    while k < |sends|
      invariant 0 <= k <= |sends| && |lists'| == |lists| && AllNonNegative(lists')
      invariant forall d: nat :: d < |lists| ==>
        Weight(lists'[d], All) == Weight(lists[d], All) + WeightTo(sends[..k], d, All)
      invariant forall pick :: Prefix(lists', pick) == Prefix(lists, pick) + WeightSent(sends[..k], pick)
    {
      var s := sends[k];
      assert sends[..k + 1] == sends[..k] + [s];
      forall d: nat | d < |lists|
        ensures WeightTo(sends[..k + 1], d, All)
             == WeightTo(sends[..k], d, All) + if d == s.dest then Weight(s.items, All) else 0.0
      {
      }
      forall pick
        ensures Prefix(lists'[s.dest := lists'[s.dest] + s.items], pick) == Prefix(lists', pick) + Weight(s.items, pick)
        ensures WeightSent(sends[..k + 1], pick) == WeightSent(sends[..k], pick) + Weight(s.items, pick)
      {
        PrefixUpdate(lists', s.dest, s.items, pick);
      }
      WeightAppend(lists'[s.dest], s.items, All);
      lists' := lists'[s.dest := lists'[s.dest] + s.items];
      k := k + 1;
    }
    assert sends[..k] == sends;
  }

  lemma {:induction false} WholeShare(d: nat, ranks: nat, target: real)
    requires d < ranks && target > 0.0
    ensures Share(0.0, Edge(ranks, target), d, target) == target
  {
    EdgeMonotone(d + 1, ranks, target);
    EdgeMonotone(0, d, target);
  }

  /** What the ranks hold when the lists of the first `r` ranks have been dealt out. */
  ghost predicate HoldShares(balanced: seq<seq<Weighted>>, lists: seq<seq<Weighted>>, r: nat, target: real)
    requires r <= |lists|
  {
    && |balanced| == |lists| && AllNonNegative(balanced)
    && (forall d: nat :: d < |lists| ==> Weight(balanced[d], All) == Share(0.0, Prefix(lists[..r], All), d, target))
    && (forall pick :: Prefix(balanced, pick) == Prefix(lists[..r], pick))
  }

  lemma {:induction false} NextShares(balanced: seq<seq<Weighted>>, balanced': seq<seq<Weighted>>, sends: seq<Send>,
                                      lists: seq<seq<Weighted>>, r: nat, lo: real, target: real)
    requires r < |lists| && target > 0.0 && HoldShares(balanced, lists, r, target)
    requires 0.0 <= lo == Prefix(lists[..r], All) && 0.0 <= Weight(lists[r], All)
    requires forall d: nat :: d < |lists| ==>
      WeightTo(sends, d, All) == Share(lo, lo + Weight(lists[r], All), d, target)
    requires forall pick :: WeightSent(sends, pick) == Weight(lists[r], pick)
    requires |balanced'| == |balanced| && AllNonNegative(balanced')
    requires forall d: nat :: d < |lists| ==>
      Weight(balanced'[d], All) == Weight(balanced[d], All) + WeightTo(sends, d, All)
    requires forall pick :: Prefix(balanced', pick) == Prefix(balanced, pick) + WeightSent(sends, pick)
    ensures HoldShares(balanced', lists, r + 1, target)
  {
    PrefixNext(lists, r, All);
    forall d: nat | d < |lists|
      ensures Weight(balanced'[d], All) == Share(0.0, Prefix(lists[..r + 1], All), d, target)
    {
    }
    forall pick
      ensures Prefix(balanced', pick) == Prefix(lists[..r + 1], pick)
    {
      PrefixNext(lists, r, pick);
    }
  }

  /** One rank deals out its list where the ranks before it ended. */
  method DealNext(lists: seq<seq<Weighted>>, r: nat, prefix: real, target: real, balanced: seq<seq<Weighted>>)
    returns (balanced': seq<seq<Weighted>>, prefix': real)
    requires r < |lists| && AllNonNegative(lists) && target > 0.0 && Prefix(lists, All) == Edge(|lists|, target)
    requires 0.0 <= prefix == Prefix(lists[..r], All) && HoldShares(balanced, lists, r, target)
    ensures 0.0 <= prefix' == Prefix(lists[..r + 1], All) && HoldShares(balanced', lists, r + 1, target)
  {
    PrefixNext(lists, r, All);
    PrefixMonotone(lists, r + 1);
    WeightNonNegative(lists[r], All);
    var sends := BalanceRank(lists[r], prefix, target, |lists|);
    balanced' := Deliver(balanced, sends);
    NextShares(balanced, balanced', sends, lists, r, prefix, target);
    prefix' := prefix + Weight(lists[r], All);
  }

  /** All ranks deal out their lists. */
  method DealOut(lists: seq<seq<Weighted>>, target: real) returns (balanced: seq<seq<Weighted>>)
    requires AllNonNegative(lists) && target > 0.0 && Prefix(lists, All) == Edge(|lists|, target)
    ensures |balanced| == |lists| && AllNonNegative(balanced)
    ensures forall d: nat :: d < |lists| ==> Weight(balanced[d], All) == target
    ensures forall pick :: Prefix(balanced, pick) == Prefix(lists, pick)
  {
    balanced := seq(|lists|, _ => []);
    NothingYet(balanced);
    var r, prefix := 0, 0.0;
    while r < |lists|
      invariant 0 <= r <= |lists| && 0.0 <= prefix == Prefix(lists[..r], All)
      invariant HoldShares(balanced, lists, r, target)
    {
      balanced, prefix := DealNext(lists, r, prefix, target, balanced);
      r := r + 1;
    }
    AllDealt(balanced, lists, target);
  }

  lemma {:induction false} AllDealt(balanced: seq<seq<Weighted>>, lists: seq<seq<Weighted>>, target: real)
    requires HoldShares(balanced, lists, |lists|, target) && target > 0.0 && Prefix(lists, All) == Edge(|lists|, target)
    ensures forall d: nat :: d < |lists| ==> Weight(balanced[d], All) == target
    ensures forall pick :: Prefix(balanced, pick) == Prefix(lists, pick)
  {
    assert lists[..|lists|] == lists;
    forall d: nat | d < |lists|
      ensures Weight(balanced[d], All) == target
    {
      WholeShare(d, |lists|, target);
    }
  }

  /** After balancing, every rank holds exactly an equal share of the total weight, and the
      weight of every identifier over all ranks is what it was. */
  method BalanceWeight(lists: seq<seq<Weighted>>) returns (balanced: seq<seq<Weighted>>)
    requires AllNonNegative(lists) && Prefix(lists, All) > 0.0
    ensures |balanced| == |lists| && AllNonNegative(balanced)
    ensures forall d: nat :: d < |lists| ==>
      Weight(balanced[d], All) == Prefix(lists, All) / |lists| as real && balanced[d] != []
    ensures forall pick :: Prefix(balanced, pick) == Prefix(lists, pick)
  {
    EqualShares(Prefix(lists, All), |lists|);
    balanced := DealOut(lists, Prefix(lists, All) / |lists| as real);
  }

  lemma {:induction false} NothingYet(lists: seq<seq<Weighted>>)
    requires forall i :: 0 <= i < |lists| ==> lists[i] == []
    ensures forall pick :: Prefix(lists, pick) == 0.0
  {
    if lists != [] {
      NothingYet(lists[..|lists| - 1]);
    }
  }

  // ----- Vose's construction -----

  /** An entry gives `p` of its mass to `a` and the rest, up to the average, to `b`. */
  datatype Entry = Entry(p: real, a: int, b: int)

  /** The identifier that the default constructor of the item type gives. */
  const DEFAULT_ID: int := 0

  function Mass(table: seq<Entry>, avg: real, pick: Pick): real {
    if table == [] then 0.0
    else
      var e := table[|table| - 1];
      Mass(table[..|table| - 1], avg, pick) + (if Picks(pick, e.a) then e.p else 0.0) +
      (if Picks(pick, e.b) then avg - e.p else 0.0)
  }

  ghost predicate TableOk(table: seq<Entry>, avg: real) {
    forall i :: 0 <= i < |table| ==> 0.0 <= table[i].p <= avg
  }

  lemma {:induction false} WeightDropLast(items: seq<Weighted>, pick: Pick)
    requires items != []
    ensures Weight(items, pick)
         == Weight(items[..|items| - 1], pick)
            + if Picks(pick, items[|items| - 1].id) then items[|items| - 1].weight else 0.0
  {
    assert items == items[..|items| - 1] + [items[|items| - 1]];
    WeightPush(items[..|items| - 1], items[|items| - 1], pick);
  }

  /** What the construction keeps: all light items are below the average and all heavy ones are
      not, the average of what is left stays the same, and no identifier loses mass. */
  ghost predicate Building(light: seq<Weighted>, heavy: seq<Weighted>, table: seq<Entry>, avg: real,
                           items: seq<Weighted>) {
    && (forall i :: 0 <= i < |light| ==> 0.0 <= light[i].weight < avg)
    && (forall i :: 0 <= i < |heavy| ==> avg <= heavy[i].weight)
    && avg >= 0.0 && TableOk(table, avg)
    && |table| + |light| + |heavy| == |items|
    && Weight(light, All) + Weight(heavy, All) == Times(|light| + |heavy|, avg)
    && forall pick :: Kept(light, heavy, table, avg, items, pick)
  }

  ghost predicate Kept(light: seq<Weighted>, heavy: seq<Weighted>, table: seq<Entry>, avg: real, items: seq<Weighted>,
                       pick: Pick) {
    pick.All? || Mass(table, avg, pick) + Weight(light, pick) + Weight(heavy, pick) == Weight(items, pick)
  }

  function Times(n: nat, x: real): real {
    if n == 0 then 0.0 else Times(n - 1, x) + x
  }

  lemma {:induction false} TimesIsProduct(n: nat, x: real)
    ensures Times(n, x) == (n as real) * x
  {
    if n > 0 {
      TimesIsProduct(n - 1, x);
      Distribute((n - 1) as real, 1.0, x);
    }
  }

  /** One step: the last light item becomes an entry, filled up by the last heavy one, which
      may become light by that. */
  lemma {:induction false} PairStep(light: seq<Weighted>, heavy: seq<Weighted>, table: seq<Entry>, avg: real,
                                    items: seq<Weighted>, light': seq<Weighted>, heavy': seq<Weighted>)
    requires Building(light, heavy, table, avg, items) && light != [] && heavy != []
    requires
      var l, h := light[|light| - 1], heavy[|heavy| - 1];
      var rest := Weighted(h.id, h.weight + l.weight - avg);
      || (rest.weight < avg && light' == light[..|light| - 1] + [rest] && heavy' == heavy[..|heavy| - 1])
      || (rest.weight >= avg && light' == light[..|light| - 1] && heavy' == heavy[..|heavy| - 1] + [rest])
    ensures Building(light', heavy',
                     table + [Entry(light[|light| - 1].weight, light[|light| - 1].id, heavy[|heavy| - 1].id)],
                     avg, items)
  {
    var l, h := light[|light| - 1], heavy[|heavy| - 1];
    var lights, heavies := light[..|light| - 1], heavy[..|heavy| - 1];
    var rest := Weighted(h.id, h.weight + l.weight - avg);
    var e := Entry(l.weight, l.id, h.id);
    var table' := table + [e];
    forall pick: Pick
      ensures Weight(light', pick) + Weight(heavy', pick)
           == Weight(lights, pick) + Weight(heavies, pick) + if Picks(pick, h.id) then rest.weight else 0.0
      ensures Weight(light, pick) == Weight(lights, pick) + if Picks(pick, l.id) then l.weight else 0.0
      ensures Weight(heavy, pick) == Weight(heavies, pick) + if Picks(pick, h.id) then h.weight else 0.0
    {
      WeightDropLast(light, pick);
      WeightDropLast(heavy, pick);
      WeightPush(lights, rest, pick);
      WeightPush(heavies, rest, pick);
    }
    forall pick: Pick
      ensures Kept(light', heavy', table', avg, items, pick)
    {
      assert Kept(light, heavy, table, avg, items, pick);
    }
  }

  /** Items that weigh no more than the average and weigh the average together. */
  lemma {:induction false} AllAverage(heavy: seq<Weighted>, avg: real)
    requires forall i :: 0 <= i < |heavy| ==> avg <= heavy[i].weight
    ensures Weight(heavy, All) >= Times(|heavy|, avg)
    ensures Weight(heavy, All) == Times(|heavy|, avg) ==> forall i :: 0 <= i < |heavy| ==> heavy[i].weight == avg
  {
    if heavy != [] {
      AllAverage(heavy[1..], avg);
    }
  }

  /** Items below the average cannot weigh the average together. */
  lemma {:induction false} NoLightLeft(light: seq<Weighted>, avg: real)
    requires forall i :: 0 <= i < |light| ==> light[i].weight < avg
    ensures light != [] ==> Weight(light, All) < Times(|light|, avg)
  {
    if light != [] {
      NoLightLeft(light[1..], avg);
    }
  }

  /** The two stacks that the construction starts from. */
  method SplitItems(items: seq<Weighted>, avg: real) returns (light: seq<Weighted>, heavy: seq<Weighted>)
    requires NonNegative(items) && avg >= 0.0 && Weight(items, All) == Times(|items|, avg)
    ensures Building(light, heavy, [], avg, items)
  {
    light, heavy := [], [];
    var i := 0;
    while i < |items|
      invariant 0 <= i <= |items| && |light| + |heavy| == i
      invariant forall k :: 0 <= k < |light| ==> 0.0 <= light[k].weight < avg
      invariant forall k :: 0 <= k < |heavy| ==> avg <= heavy[k].weight
      invariant forall pick :: Weight(light, pick) + Weight(heavy, pick) == Weight(items[..i], pick)
    {
      forall pick
        ensures Weight(items[..i + 1], pick)
             == Weight(items[..i], pick) + if Picks(pick, items[i].id) then items[i].weight else 0.0
        ensures Weight(light + [items[i]], pick)
             == Weight(light, pick) + if Picks(pick, items[i].id) then items[i].weight else 0.0
        ensures Weight(heavy + [items[i]], pick)
             == Weight(heavy, pick) + if Picks(pick, items[i].id) then items[i].weight else 0.0
      {
        assert items[..i + 1] == items[..i] + [items[i]];
        WeightPush(items[..i], items[i], pick);
        WeightPush(light, items[i], pick);
        WeightPush(heavy, items[i], pick);
      }
      if items[i].weight < avg {
        light := light + [items[i]];
      } else {
        heavy := heavy + [items[i]];
      }
      i := i + 1;
    }
    assert items[..i] == items;
  }

  /** The main loop: entries are made while there are both light and heavy items. */
  method PairUp(items: seq<Weighted>, lights: seq<Weighted>, heavies: seq<Weighted>, avg: real)
    returns (light: seq<Weighted>, heavy: seq<Weighted>, table: seq<Entry>)
    requires Building(lights, heavies, [], avg, items)
    ensures Building(light, heavy, table, avg, items) && (light == [] || heavy == [])
  {
    light, heavy, table := lights, heavies, [];
    while light != [] && heavy != []
      invariant Building(light, heavy, table, avg, items)
      decreases |light| + |heavy|
    {
      var l, h := light[|light| - 1], heavy[|heavy| - 1];
      ghost var light0, heavy0, table0 := light, heavy, table;
      table := table + [Entry(l.weight, l.id, h.id)];
      h := Weighted(h.id, h.weight + l.weight - avg);
      light := light[..|light| - 1];
      if h.weight < avg {
        light := light + [h];
        heavy := heavy[..|heavy| - 1];
      } else {
        heavy := heavy[..|heavy| - 1] + [h];
      }
      PairStep(light0, heavy0, table0, avg, items, light, heavy);
    }
  }

  /** What is left on a stack goes into the table with the average as its mass. */
  method FlushStack(stack: seq<Weighted>, table: seq<Entry>, avg: real) returns (table': seq<Entry>)
    requires avg >= 0.0 && TableOk(table, avg)
    ensures TableOk(table', avg) && |table'| == |table| + |stack|
    ensures stack == [] ==> table' == table
    ensures (forall i :: 0 <= i < |stack| ==> stack[i].weight == avg) ==>
      forall pick :: Mass(table', avg, pick) == Mass(table, avg, pick) + Weight(stack, pick)
  {
    table' := table;
    var left := stack;
    while left != []
      invariant |left| <= |stack| && left == stack[..|left|]
      invariant TableOk(table', avg) && |table'| + |left| == |table| + |stack|
      invariant stack == [] ==> table' == table
      invariant (forall i :: 0 <= i < |stack| ==> stack[i].weight == avg) ==>
        forall pick :: Mass(table', avg, pick) + Weight(left, pick) == Mass(table, avg, pick) + Weight(stack, pick)
      decreases |left|
    {
      var h := left[|left| - 1];
      var e := Entry(avg, h.id, DEFAULT_ID);
      forall pick
        ensures Weight(left, pick) == Weight(left[..|left| - 1], pick) + if Picks(pick, h.id) then h.weight else 0.0
        ensures Mass(table' + [e], avg, pick) == Mass(table', avg, pick) + if Picks(pick, h.id) then avg else 0.0
      {
        WeightDropLast(left, pick);
      }
      table' := table' + [e];
      left := left[..|left| - 1];
    }
  }

  /** A table whose entries have the mass `share` together. */
  ghost predicate Holds(table: seq<Entry>, avg: real, share: real) {
    TableOk(table, avg) && table != [] && Times(|table|, avg) == share
  }

  /** The alias table: one entry for every item, no entry beyond the average, and every
      identifier keeps exactly the mass its items had. */
  method BuildLocalAliasTable(items: seq<Weighted>) returns (table: seq<Entry>, avg: real)
    requires items != [] && NonNegative(items)
    ensures avg == Weight(items, All) / |items| as real
    ensures |table| == |items|
    ensures Holds(table, avg, Weight(items, All))
    ensures forall id: int :: Mass(table, avg, Only(id)) == Weight(items, Only(id))
  {
    WeightNonNegative(items, All);
    avg := Weight(items, All) / |items| as real;
    TimesIsProduct(|items|, avg);
    var light, heavy := SplitItems(items, avg);
    light, heavy, table := PairUp(items, light, heavy, avg);
    ghost var paired := table;
    AllAverage(heavy, avg);
    table := FlushStack(heavy, table, avg);
    ghost var flushed := table;
    table := FlushStack(light, table, avg);
    NoLightLeft(light, avg);
    forall id
      ensures Mass(table, avg, Only(id)) == Weight(items, Only(id))
    {
      assert Kept(light, heavy, paired, avg, items, Only(id));
    }
  }

  /** The whole construction: with positive total weight every rank gets a table of the same
      mass, and over all ranks every identifier has the mass of its items. */
  method BuildAliasTable(lists: seq<seq<Weighted>>) returns (tables: seq<seq<Entry>>, avgs: seq<real>)
    requires AllNonNegative(lists) && Prefix(lists, All) > 0.0
    ensures |tables| == |avgs| == |lists|
    ensures forall r :: 0 <= r < |lists| ==> Holds(tables[r], avgs[r], Prefix(lists, All) / |lists| as real)
    ensures forall id :: TotalMass(tables, avgs, Only(id)) == Prefix(lists, Only(id))
  {
    var balanced := BalanceWeight(lists);
    ghost var share := Prefix(lists, All) / |lists| as real;
    tables, avgs := [], [];
    var r := 0;
    while r < |lists|
      invariant 0 <= r <= |lists| && |tables| == |avgs| == r
      invariant forall k :: 0 <= k < r ==> Holds(tables[k], avgs[k], share)
      invariant forall id :: TotalMass(tables, avgs, Only(id)) == Prefix(balanced[..r], Only(id))
    {
      var table, avg := BuildLocalAliasTable(balanced[r]);
      forall id
        ensures TotalMass(tables + [table], avgs + [avg], Only(id)) == Prefix(balanced[..r + 1], Only(id))
      {
        PrefixNext(balanced, r, Only(id));
      }
      tables, avgs, r := tables + [table], avgs + [avg], r + 1;
    }
    assert balanced[..r] == balanced;
  }

  function TotalMass(tables: seq<seq<Entry>>, avgs: seq<real>, pick: Pick): real
    requires |tables| == |avgs|
  {
    if tables == [] then 0.0
    else
      TotalMass(tables[..|tables| - 1], avgs[..|avgs| - 1], pick) + Mass(tables[|tables| - 1], avgs[|avgs| - 1], pick)
  }
}
