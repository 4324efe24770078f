/** `block_partitioner`: the indices of an array are dealt out to the ranks in contiguous
    blocks, the first blocks one larger when the size is not divisible. */
module BlockPartition {
  import opened Arithmetic

  datatype Partitioner = Partitioner(size: nat, ranks: nat) {
    ghost predicate Valid() {
      ranks > 0
    }

    function SmallBlock(): nat
      requires ranks > 0
    {
      size / ranks
    }

    /** How many blocks are large. */
    function Extra(): nat
      requires ranks > 0
    {
      size % ranks
    }

    function LargeBlock(): nat
      requires ranks > 0
    {
      SmallBlock() + if size % ranks > 0 then 1 else 0
    }

    function LocalStart(rank: nat): nat
      requires ranks > 0
    {
      if rank < Extra() then rank * LargeBlock()
      else Extra() * LargeBlock() + (rank - Extra()) * SmallBlock()
    }

    function LocalSize(rank: nat): nat
      requires ranks > 0
    {
      SmallBlock() + if rank < Extra() then 1 else 0
    }

    /** `owner`, with the divisions that its assertions protect. */
    function Owner(index: nat): nat
      requires ranks > 0 && index < size
    {
      var switch := Extra() * LargeBlock();
      if index < switch then
        FactorUsed(Extra(), LargeBlock(), index);
        Division(index, LargeBlock());
        index / LargeBlock()
      else
        SmallBlockUsed(this, index);
        Division(index - switch, SmallBlock());
        Extra() + (index - switch) / SmallBlock()
    }

    function LocalIndex(rank: nat, index: nat): int
      requires ranks > 0
    {
      index - LocalStart(rank)
    }

    function GlobalIndex(rank: nat, local: nat): nat
      requires ranks > 0
    {
      LocalStart(rank) + local
    }
  }

  /** The assertion before the second division of `owner` holds. */
  lemma {:induction false} SmallBlockUsed(p: Partitioner, index: nat)
    requires p.ranks > 0 && p.Extra() * p.LargeBlock() <= index < p.size
    ensures p.SmallBlock() > 0
  {
    BlockSum(p);
  }

  lemma {:induction false} BlockSum(p: Partitioner)
    requires p.ranks > 0
    ensures p.size == p.SmallBlock() * p.ranks + p.Extra()
    ensures p.Extra() * p.LargeBlock() == p.Extra() * p.SmallBlock() + p.Extra()
  {
    Division(p.size, p.ranks);
    if p.Extra() > 0 {
      assert p.LargeBlock() == p.SmallBlock() + 1;
      TimesNext(p.Extra(), p.SmallBlock());
    }
  }

  /** The blocks follow each other without gaps from 0 to the size of the array, and differ in
      size by at most one. */
  lemma {:induction false} BlocksTile(p: Partitioner, rank: nat)
    requires p.Valid() && rank < p.ranks
    ensures p.LocalStart(0) == 0 && p.LocalStart(p.ranks) == p.size
    ensures p.LocalStart(rank + 1) == p.LocalStart(rank) + p.LocalSize(rank)
    ensures p.LocalSize(rank) == p.SmallBlock() || p.LocalSize(rank) == p.SmallBlock() + 1
  {
    BlockSum(p);
    var e, small, large := p.Extra(), p.SmallBlock(), p.LargeBlock();
    assert (p.ranks - e) * small == small * p.ranks - e * small;
    if rank + 1 < e {
      TimesNext(large, rank);
    } else if rank + 1 == e {
      TimesNext(large, rank);
      assert (rank + 1 - e) * small == 0;
    } else {
      TimesNext(small, rank - e);
      assert (rank + 1 - e) * small == (rank - e) * small + small;
    }
  }

  lemma {:induction false} StartMonotone(p: Partitioner, r: nat, s: nat)
    requires p.Valid() && r <= s <= p.ranks
    ensures p.LocalStart(r) <= p.LocalStart(s)
    decreases s - r
  {
    if r < s {
      BlocksTile(p, r);
      StartMonotone(p, r + 1, s);
    }
  }

  /** The owner of an index is a rank, and the index lies in its block. */
  lemma {:induction false} OwnerHolds(p: Partitioner, index: nat)
    requires p.Valid() && index < p.size
    ensures p.Owner(index) < p.ranks
    ensures 0 <= p.LocalIndex(p.Owner(index), index) < p.LocalSize(p.Owner(index))
    ensures p.GlobalIndex(p.Owner(index), p.LocalIndex(p.Owner(index), index)) == index
  {
    BlockSum(p);
    if index < p.Extra() * p.LargeBlock() {
      FactorUsed(p.Extra(), p.LargeBlock(), index);
      InBlock(index, p.LargeBlock(), p.Extra());
    } else {
      SmallOwnerHolds(p, index);
    }
  }

  lemma {:induction false} SmallOwnerHolds(p: Partitioner, index: nat)
    requires p.Valid() && p.Extra() * p.LargeBlock() <= index < p.size
    ensures p.Extra() <= p.Owner(index) < p.ranks
    ensures 0 <= p.LocalIndex(p.Owner(index), index) < p.SmallBlock()
  {
    SmallBlockUsed(p, index);
    BlockSum(p);
    Past(index, p.Extra(), p.SmallBlock(), p.LargeBlock(), p.ranks, p.size);
  }

  /** The same in numbers: an index past the large blocks falls into one of the small ones. */
  lemma {:induction false} Past(index: nat, extra: nat, small: nat, large: nat, ranks: nat, size: nat)
    requires extra <= ranks && size == small * ranks + extra && extra * large == extra * small + extra
    requires extra * large <= index < size && small > 0
    ensures var past := index - extra * large;
      past / small < ranks - extra && (past / small) * small <= past < (past / small) * small + small
  {
    assert (ranks - extra) * small == small * ranks - extra * small;
    InBlock(index - extra * large, small, ranks - extra);
  }

  /** Every slot of a block belongs to exactly the index it is computed from: the owner of the
      global index of a local slot is the rank that has the slot. */
  lemma {:induction false} OwnerOfSlot(p: Partitioner, rank: nat, local: nat)
    requires p.Valid() && rank < p.ranks && local < p.LocalSize(rank)
    ensures p.GlobalIndex(rank, local) < p.size
    ensures p.Owner(p.GlobalIndex(rank, local)) == rank
    ensures p.LocalIndex(rank, p.GlobalIndex(rank, local)) == local
  {
    var index := p.GlobalIndex(rank, local);
    BlocksTile(p, rank);
    StartMonotone(p, rank + 1, p.ranks);
    OwnerHolds(p, index);
    var r := p.Owner(index);
    BlocksTile(p, r);
    if r < rank {
      StartMonotone(p, r + 1, rank);
    } else if rank < r {
      StartMonotone(p, rank + 1, r);
    }
  }
}
