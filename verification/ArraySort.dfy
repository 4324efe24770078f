/** `array::sort`: values are sent to the rank between whose pivots they fall, sorted there and
    written back in rank order.  Whatever was sampled, the array ends up sorted. */
module ArraySort {
  import opened BlockPartition
  import opened Sorting
  import opened Arithmetic

  /** A value with its index, which tells equal values apart. */
  type Key = (int, nat)

  predicate KeyLeq(a: Key, b: Key) {
    a.0 < b.0 || (a.0 == b.0 && a.1 <= b.1)
  }

  predicate Leq(a: int, b: int) {
    a <= b
  }

  // ----- the array as one sequence -----

  function Flatten(lists: seq<seq<int>>): seq<int> {
    if lists == [] then [] else Flatten(lists[..|lists| - 1]) + lists[|lists| - 1]
  }

  lemma {:induction false} FlattenTake(lists: seq<seq<int>>, r: nat)
    requires r < |lists|
    ensures Flatten(lists[..r + 1]) == Flatten(lists[..r]) + lists[r]
  {
    assert lists[..r + 1][..r] == lists[..r];
  }

  /** Where slot `l` of list `r` lies in the whole. */
  lemma {:induction false} FlattenAt(lists: seq<seq<int>>, r: nat, l: nat)
    requires r < |lists| && l < |lists[r]|
    ensures |Flatten(lists[..r])| + l < |Flatten(lists)|
    ensures Flatten(lists)[|Flatten(lists[..r])| + l] == lists[r][l]
    decreases |lists|
  {
    var n := |lists| - 1;
    if r < n {
      FlattenAt(lists[..n], r, l);
      assert lists[..n][..r] == lists[..r];
    }
  }

  lemma {:induction false} FlattenUpdate(lists: seq<seq<int>>, r: nat, l: nat, v: int)
    requires r < |lists| && l < |lists[r]|
    ensures |Flatten(lists[..r])| + l < |Flatten(lists)|
    ensures Flatten(lists[r := lists[r][l := v]]) == Flatten(lists)[|Flatten(lists[..r])| + l := v]
    decreases |lists|
  {
    var n := |lists| - 1;
    var lists' := lists[r := lists[r][l := v]];
    FlattenAt(lists, r, l);
    if r < n {
      FlattenUpdate(lists[..n], r, l, v);
      assert lists[..n][..r] == lists[..r];
      assert lists'[..n] == lists[..n][r := lists[r][l := v]];
    } else {
      assert lists'[..n] == lists[..n];
    }
  }

  lemma {:induction false} FlattenAppend(lists: seq<seq<int>>, r: nat, v: int, x: int)
    requires r < |lists|
    ensures |Flatten(lists[r := lists[r] + [v]])| == |Flatten(lists)| + 1
    ensures Count(Flatten(lists[r := lists[r] + [v]]), x) == Count(Flatten(lists), x) + if x == v then 1 else 0
  {
    var n := |lists| - 1;
    var lists' := lists[r := lists[r] + [v]];
    CountAppend(Flatten(lists[..n]), lists[n], x);
    CountAppend(Flatten(lists'[..n]), lists'[n], x);
    if r < n {
      assert lists'[..n] == lists[..n][r := lists[r] + [v]];
      FlattenAppend(lists[..n], r, v, x);
    } else {
      assert lists'[..n] == lists[..n];
      CountAppend(lists[n], [v], x);
      assert [v][1..] == [];
    }
  }

  /** Every rank holds its block. */
  ghost predicate Shaped(p: Partitioner, locals: seq<seq<int>>) {
    && p.Valid() && |locals| == p.ranks
    && forall r: nat :: r < p.ranks ==> |locals[r]| == p.LocalSize(r)
  }

  lemma {:induction false} BlockOffset(p: Partitioner, locals: seq<seq<int>>, r: nat)
    requires Shaped(p, locals) && r <= p.ranks
    ensures |Flatten(locals[..r])| == p.LocalStart(r)
  {
    if r == 0 {
      BlocksTile(p, 0);
    } else {
      BlockOffset(p, locals, r - 1);
      BlocksTile(p, r - 1);
      FlattenTake(locals, r - 1);
    }
  }

  lemma {:induction false} WholeSize(p: Partitioner, locals: seq<seq<int>>)
    requires Shaped(p, locals)
    ensures |Flatten(locals)| == p.size
  {
    BlockOffset(p, locals, p.ranks);
    assert locals[..p.ranks] == locals;
    BlocksTile(p, 0);
  }

  // ----- pivots -----

  function CountBelow(draws: seq<nat>, n: nat): nat {
    if draws == [] then 0
    else CountBelow(draws[..|draws| - 1], n) + if draws[|draws| - 1] < n then 1 else 0
  }

  /** Exactly the owner of an index finds it in its block. */
  lemma {:induction false} OneOwner(p: Partitioner, rank: nat, index: nat)
    requires p.Valid() && rank < p.ranks
    ensures p.LocalStart(rank) <= index < p.LocalStart(rank) + p.LocalSize(rank) <==>
      index < p.size && p.Owner(index) == rank
  {
    if p.LocalStart(rank) <= index < p.LocalStart(rank) + p.LocalSize(rank) {
      OwnerOfSlot(p, rank, index - p.LocalStart(rank));
    }
    if index < p.size {
      OwnerHolds(p, index);
    }
  }

  /** All ranks draw the same indices; the rank that has an index broadcasts its value. */
  method DrawSamples(p: Partitioner, locals: seq<seq<int>>, draws: seq<nat>) returns (samples: seq<Key>)
    requires Shaped(p, locals)
    ensures |samples| == CountBelow(draws, p.size)
  {
    samples := [];
    var i := 0;
    while i < |draws|
      invariant 0 <= i <= |draws|
      invariant |samples| == CountBelow(draws[..i], p.size)
    {
      var index := draws[i];
      ghost var before := |samples|;
      if index < p.size {
        OwnerHolds(p, index);
      }
      var r: nat := 0;
      while r < p.ranks
        invariant r <= p.ranks
        invariant |samples| == before + if index < p.size && p.Owner(index) < r then 1 else 0
      {
        OneOwner(p, r, index);
        if p.LocalStart(r) <= index < p.LocalStart(r) + p.LocalSize(r) {
          samples := samples + [(locals[r][index - p.LocalStart(r)], index)];
        }
        r := r + 1;
      }
      assert draws[..i + 1][..i] == draws[..i];
      i := i + 1;
    }
    assert draws[..i] == draws;
  }

  /** At most 20, and as many as there are values for each rank if these are fewer, but never none. */
  function SamplesPerPivot(p: Partitioner): (n: nat)
    requires p.ranks > 0
    ensures 1 <= n <= 20
    ensures n > 1 ==> n <= p.size / p.ranks
    ensures n < 20 ==> n >= p.size / p.ranks
  {
    var few := if 20 < p.size / p.ranks then 20 else p.size / p.ranks;
    if few > 1 then few else 1
  }

  /** Pivot `k` is the last of the `k`-th group of `step` samples. */
  predicate PivotFrom(sorted: seq<Key>, step: nat, pivots: seq<Key>, k: nat)
    requires k < |pivots|
  {
    0 < step * (k + 1) <= |sorted| && pivots[k] == sorted[step * (k + 1) - 1]
  }

  /** Every so many samples, one becomes a pivot. */
  method ChoosePivots(samples: seq<Key>, step: nat, count: nat) returns (pivots: seq<Key>)
    requires step > 0 && |samples| == step * count
    ensures |pivots| == count && SortedBy(pivots, KeyLeq)
    ensures forall k :: 0 <= k < count ==> PivotFrom(Sort(samples, KeyLeq), step, pivots, k)
  {
    assert SortedBy<Key>([], KeyLeq);
    var sorted := Sort(samples, KeyLeq);
    SortSorts(samples, KeyLeq);
    SortCount(samples, KeyLeq);
    hide *;
    pivots := [];
    var i := step - 1;
    while i < |sorted|
      invariant |pivots| <= count && i == step * |pivots| + step - 1
      invariant SortedBy(pivots, KeyLeq)
      invariant forall k :: 0 <= k < |pivots| ==> PivotFrom(sorted, step, pivots, k)
    {
      Room(step, |pivots|, count);
      TimesNext(step, |pivots|);
      OneMorePivot(sorted, pivots, i, step);
      pivots := pivots + [sorted[i]];
      i := i + step;
    }
    if |pivots| < count {
      MulLess(|pivots|, count, step);
    }
  }

  lemma {:induction false} OneMorePivot(sorted: seq<Key>, pivots: seq<Key>, i: nat, step: nat)
    requires SortedBy(sorted, KeyLeq) && SortedBy(pivots, KeyLeq) && i < |sorted|
    requires i == step * (|pivots| + 1) - 1 && step > 0
    requires forall k :: 0 <= k < |pivots| ==> PivotFrom(sorted, step, pivots, k)
    ensures SortedBy(pivots + [sorted[i]], KeyLeq)
    ensures forall k :: 0 <= k <= |pivots| ==> PivotFrom(sorted, step, pivots + [sorted[i]], k)
  {
    forall k | 0 <= k < |pivots| ensures KeyLeq(pivots[k], sorted[i]) {
      assert PivotFrom(sorted, step, pivots, k);
      MulLess(k + 1, |pivots| + 1, step);
    }
    forall k | 0 <= k < |pivots| ensures PivotFrom(sorted, step, pivots + [sorted[i]], k) {
      assert PivotFrom(sorted, step, pivots, k);
    }
  }

  lemma {:induction false} Room(step: nat, k: nat, count: nat)
    requires step > 0 && step * k + step - 1 < step * count
    ensures k < count
  {
    if k >= count {
      TimesMonotone(count, k, step);
    }
  }

  /** `std::lower_bound`: how many pivots come before the first that is not less. */
  function LowerBound(pivots: seq<Key>, key: Key): (k: nat)
    ensures k <= |pivots|
    ensures k < |pivots| ==> KeyLeq(key, pivots[k])
    ensures forall j :: 0 <= j < k ==> KeyLeq(pivots[j], key) && pivots[j] != key
  {
    if pivots == [] || KeyLeq(key, pivots[0]) then 0 else 1 + LowerBound(pivots[1..], key)
  }

  /** A value that may be on rank `d`: it lies between the pivots around that rank. */
  ghost predicate Fits(pivots: seq<Key>, d: nat, v: int) {
    && (d < |pivots| ==> v <= pivots[d].0)
    && (0 < d <= |pivots| ==> pivots[d - 1].0 <= v)
  }

  ghost predicate AllFit(pivots: seq<Key>, buckets: seq<seq<int>>) {
    forall d: nat, k: nat :: d < |buckets| && k < |buckets[d]| ==> Fits(pivots, d, buckets[d][k])
  }

  /** One rank sends each of its values to the rank between whose pivots it falls. */
  method SendToOwners(pivots: seq<Key>, local: seq<int>, start: nat, buckets: seq<seq<int>>)
    returns (buckets': seq<seq<int>>)
    requires |buckets| == |pivots| + 1 && AllFit(pivots, buckets)
    ensures |buckets'| == |buckets| && AllFit(pivots, buckets')
    ensures |Flatten(buckets')| == |Flatten(buckets)| + |local|
    ensures forall x :: Count(Flatten(buckets'), x) == Count(Flatten(buckets), x) + Count(local, x)
  {
    buckets' := buckets;
    var i := 0;
    while i < |local|
      invariant 0 <= i <= |local| && |buckets'| == |buckets| && AllFit(pivots, buckets')
      invariant |Flatten(buckets')| == |Flatten(buckets)| + i
      invariant forall x :: Count(Flatten(buckets'), x) == Count(Flatten(buckets), x) + Count(local[..i], x)
    {
      var owner := LowerBound(pivots, (local[i], start + i));
      forall x
        ensures Count(Flatten(buckets'[owner := buckets'[owner] + [local[i]]]), x)
             == Count(Flatten(buckets'), x) + if x == local[i] then 1 else 0
        ensures Count(local[..i + 1], x) == Count(local[..i], x) + if x == local[i] then 1 else 0
      {
        FlattenAppend(buckets', owner, local[i], x);
        assert local[..i + 1] == local[..i] + [local[i]];
        CountAppend(local[..i], [local[i]], x);
        assert [local[i]][1..] == [];
      }
      FlattenAppend(buckets', owner, local[i], 0);
      assert Fits(pivots, owner, local[i]);
      buckets' := buckets'[owner := buckets'[owner] + [local[i]]];
      i := i + 1;
    }
    assert local[..i] == local;
  }

  // ----- putting the sorted pieces together -----

  ghost predicate AllSorted(buckets: seq<seq<int>>) {
    forall d: nat :: d < |buckets| ==> SortedBy(buckets[d], Leq)
  }

  /** Sorted pieces that lie between sorted pivots make a sorted whole. */
  lemma {:induction false} PiecesMakeSorted(pivots: seq<Key>, buckets: seq<seq<int>>, n: nat)
    requires n <= |buckets| == |pivots| + 1 && SortedBy(pivots, KeyLeq)
    requires AllFit(pivots, buckets) && AllSorted(buckets)
    ensures SortedBy(Flatten(buckets[..n]), Leq)
    ensures 0 < n <= |pivots| ==> forall v :: v in Flatten(buckets[..n]) ==> v <= pivots[n - 1].0
  {
    if n > 0 {
      PiecesMakeSorted(pivots, buckets, n - 1);
      FlattenTake(buckets, n - 1);
      var before, last := Flatten(buckets[..n - 1]), buckets[n - 1];
      forall v | v in last
        ensures n <= |pivots| ==> v <= pivots[n - 1].0
        ensures n > 1 ==> pivots[n - 2].0 <= v
      {
        var k: nat :| k < |last| && last[k] == v;
        assert Fits(pivots, n - 1, buckets[n - 1][k]);
      }
      assert 1 < n <= |pivots| ==> KeyLeq(pivots[n - 2], pivots[n - 1]);
      var whole := before + last;
      forall i, j | 0 <= i < j < |whole|
        ensures Leq(whole[i], whole[j])
      {
        if i < |before| <= j {
          assert before[i] in before && last[j - |before|] in last;
        }
      }
    }
  }

  method SortPieces(pivots: seq<Key>, buckets: seq<seq<int>>) returns (sorted: seq<seq<int>>)
    requires AllFit(pivots, buckets)
    ensures |sorted| == |buckets| && AllFit(pivots, sorted) && AllSorted(sorted)
    ensures |Flatten(sorted)| == |Flatten(buckets)|
    ensures forall x :: Count(Flatten(sorted), x) == Count(Flatten(buckets), x)
  {
    sorted := [];
    var d := 0;
    while d < |buckets|
      invariant 0 <= d <= |buckets| && |sorted| == d && AllFit(pivots, sorted) && AllSorted(sorted)
      invariant |Flatten(sorted)| == |Flatten(buckets[..d])|
      invariant forall x :: Count(Flatten(sorted), x) == Count(Flatten(buckets[..d]), x)
    {
      var piece := Sort(buckets[d], Leq);
      SortCount(buckets[d], Leq);
      SortSorts(buckets[d], Leq);
      forall k: nat | k < |piece|
        ensures Fits(pivots, d, piece[k])
      {
        SameMembers(piece, buckets[d], piece[k]);
        var j: nat :| j < |buckets[d]| && buckets[d][j] == piece[k];
        assert Fits(pivots, d, buckets[d][j]);
      }
      FlattenTake(buckets, d);
      assert (sorted + [piece])[..d] == sorted;
      forall x
        ensures Count(Flatten(sorted + [piece]), x) == Count(Flatten(buckets[..d + 1]), x)
      {
        CountAppend(Flatten(sorted), piece, x);
        CountAppend(Flatten(buckets[..d]), buckets[d], x);
        assert Count(piece, x) == Count(buckets[d], x);
      }
      sorted := sorted + [piece];
      d := d + 1;
    }
    assert buckets[..d] == buckets;
  }

  /** `async_insert` of one value at a global index. */
  method InsertAt(p: Partitioner, locals: seq<seq<int>>, index: nat, v: int) returns (locals': seq<seq<int>>)
    requires Shaped(p, locals) && index < p.size
    ensures Shaped(p, locals') && |Flatten(locals)| == p.size
    ensures Flatten(locals') == Flatten(locals)[index := v]
  {
    OwnerHolds(p, index);
    WholeSize(p, locals);
    var r := p.Owner(index);
    var l := p.LocalIndex(r, index);
    BlockOffset(p, locals, r);
    FlattenUpdate(locals, r, l, v);
    locals' := locals[r := locals[r][l := v]];
  }

  /** One sorted piece is written to the indices from its prefix sum on. */
  method WritePiece(p: Partitioner, locals: seq<seq<int>>, pieces: seq<seq<int>>, d: nat, prefix: nat)
    returns (locals': seq<seq<int>>)
    requires Shaped(p, locals) && |Flatten(pieces)| == p.size && d < |pieces|
    requires prefix == |Flatten(pieces[..d])| && prefix + |pieces[d]| <= p.size
    requires |Flatten(locals)| == p.size && Flatten(locals)[..prefix] == Flatten(pieces)[..prefix]
    ensures Shaped(p, locals') && |Flatten(locals')| == p.size
    ensures Flatten(locals')[..prefix + |pieces[d]|] == Flatten(pieces)[..prefix + |pieces[d]|]
  {
    hide *;
    locals' := locals;
    var i := 0;
    while i < |pieces[d]|
      invariant 0 <= i <= |pieces[d]|
      invariant Shaped(p, locals') && |Flatten(locals')| == p.size
      invariant Flatten(locals')[..prefix + i] == Flatten(pieces)[..prefix + i]
    {
      FlattenAt(pieces, d, i);
      ghost var was := Flatten(locals');
      locals' := InsertAt(p, locals', prefix + i, pieces[d][i]);
      assert Flatten(locals')[..prefix + i + 1] == was[..prefix + i] + [pieces[d][i]];
      assert Flatten(pieces)[..prefix + i + 1] == Flatten(pieces)[..prefix + i] + [pieces[d][i]];
      i := i + 1;
    }
  }

  /** The sorted pieces are written back one after the other. */
  method WriteBack(p: Partitioner, locals: seq<seq<int>>, pieces: seq<seq<int>>) returns (locals': seq<seq<int>>)
    requires Shaped(p, locals) && |Flatten(pieces)| == p.size
    ensures Shaped(p, locals') && Flatten(locals') == Flatten(pieces)
  {
    locals' := locals;
    WholeSize(p, locals);
    var d, prefix := 0, 0;
    assert Flatten(pieces[..0]) == [];
    hide *;
    while d < |pieces|
      invariant 0 <= d <= |pieces| && prefix == |Flatten(pieces[..d])| <= p.size
      invariant Shaped(p, locals') && |Flatten(locals')| == p.size
      invariant Flatten(locals')[..prefix] == Flatten(pieces)[..prefix]
    {
      FlattenTake(pieces, d);
      FlattenPrefix(pieces, d + 1);
      locals' := WritePiece(p, locals', pieces, d, prefix);
      prefix := prefix + |pieces[d]|;
      d := d + 1;
    }
    assert pieces[..d] == pieces;
    assert Flatten(locals')[..prefix] == Flatten(locals');
  }

  lemma {:induction false} FlattenPrefix(lists: seq<seq<int>>, n: nat)
    requires n <= |lists|
    ensures |Flatten(lists[..n])| <= |Flatten(lists)|
    decreases |lists|
  {
    if n == |lists| {
      assert lists[..n] == lists;
    } else {
      assert lists[..|lists| - 1][..n] == lists[..n];
      FlattenPrefix(lists[..|lists| - 1], n);
    }
  }

  // ----- the whole of sort -----

  datatype Outcome = Sorted(locals: seq<seq<int>>) | SamplesMissing

  lemma {:induction false} AllBelow(draws: seq<nat>, n: nat)
    ensures CountBelow(draws, n) <= |draws|
    ensures CountBelow(draws, n) == |draws| <==> forall i :: 0 <= i < |draws| ==> draws[i] < n
  {
    if draws != [] {
      AllBelow(draws[..|draws| - 1], n);
    }
  }

  /** Whatever indices are sampled inside the array, it ends up sorted, with the values it had.
      The assertion on the number of samples fails exactly when an index is drawn outside. */
  method SortArray(p: Partitioner, locals: seq<seq<int>>, draws: seq<nat>) returns (result: Outcome)
    requires Shaped(p, locals) && |draws| == SamplesPerPivot(p) * (p.ranks - 1)
    ensures result.Sorted? <==> forall i :: 0 <= i < |draws| ==> draws[i] < p.size
    ensures result.Sorted? ==> Shaped(p, result.locals) && SortedBy(Flatten(result.locals), Leq)
    ensures result.Sorted? ==> multiset(Flatten(result.locals)) == multiset(Flatten(locals))
  {
    var samples := DrawSamples(p, locals, draws);
    AllBelow(draws, p.size);
    if |samples| != SamplesPerPivot(p) * (p.ranks - 1) {
      return SamplesMissing;
    }
    var pivots := ChoosePivots(samples, SamplesPerPivot(p), p.ranks - 1);
    var buckets := seq(p.ranks, _ => []);
    NothingSent(buckets);
    var r := 0;
    while r < p.ranks
      invariant 0 <= r <= p.ranks == |buckets| && AllFit(pivots, buckets)
      invariant |Flatten(buckets)| == |Flatten(locals[..r])|
      invariant forall x :: Count(Flatten(buckets), x) == Count(Flatten(locals[..r]), x)
    {
      FlattenTake(locals, r);
      ghost var was := buckets;
      buckets := SendToOwners(pivots, locals[r], p.LocalStart(r), buckets);
      forall x
        ensures Count(Flatten(buckets), x) == Count(Flatten(locals[..r + 1]), x)
      {
        CountAppend(Flatten(locals[..r]), locals[r], x);
        assert Count(Flatten(was), x) == Count(Flatten(locals[..r]), x);
      }
      r := r + 1;
    }
    assert locals[..r] == locals;
    var pieces := SortPieces(pivots, buckets);
    PiecesMakeSorted(pivots, pieces, p.ranks);
    assert pieces[..p.ranks] == pieces;
    WholeSize(p, locals);
    var sorted := WriteBack(p, locals, pieces);
    forall x
      ensures Count(Flatten(sorted), x) == Count(Flatten(locals), x)
    {
      assert Count(Flatten(pieces), x) == Count(Flatten(buckets), x) == Count(Flatten(locals), x);
    }
    SameElementsSameMultiset(Flatten(sorted), Flatten(locals));
    result := Sorted(sorted);
  }

  lemma {:induction false} NothingSent(buckets: seq<seq<int>>)
    requires forall d :: 0 <= d < |buckets| ==> buckets[d] == []
    ensures Flatten(buckets) == []
  {
    if buckets != [] {
      NothingSent(buckets[..|buckets| - 1]);
    }
  }

  /** An empty array cannot be sorted on more than one rank: no index can be drawn inside it. */
  lemma {:induction false} EmptyArrayFails(p: Partitioner, draws: seq<nat>)
    requires p.ranks > 1 && p.size == 0 && |draws| == SamplesPerPivot(p) * (p.ranks - 1)
    ensures !forall i :: 0 <= i < |draws| ==> draws[i] < p.size
  {
    assert SamplesPerPivot(p) == 1;
    assert draws[0] >= p.size;
  }
}
