/** `comm_router::next_hop` and the routes it produces when every rank on the way applies it. */
module Routing {
  import opened Grid

  datatype Scheme = NONE | NR | NLNR

  /** The next hop of a message for `dest` on rank `me`. */
  function NextHop(g: Layout, scheme: Scheme, me: nat, dest: nat): nat
    requires g.Valid()
  {
    match scheme
    case NONE => dest
    case NR =>
      if g.IsLocal(me, dest) then dest
      else g.RankOf(g.NodeOf(dest), g.LocalOf(me))          // strided_ranks()[node_id(dest)]
    case NLNR =>
      if g.IsLocal(me, dest) then dest
      else
        var destNode := g.NodeOf(dest);
        var offset := (destNode + g.NodeOf(me)) % g.locals;
        var channel := g.RankOf(g.NodeOf(me), offset);       // local_ranks()[offset]
        if me == channel then g.RankOf(destNode, g.LocalOf(me)) else channel
  }

  /** Where a message stands after `n` hops. */
  function After(g: Layout, scheme: Scheme, src: nat, dest: nat, n: nat): nat
    requires g.Valid()
  {
    if n == 0 then src else NextHop(g, scheme, After(g, scheme, src, dest, n - 1), dest)
  }

  /** How many of the first `n` hops leave their node. */
  function OffNodeHops(g: Layout, scheme: Scheme, src: nat, dest: nat, n: nat): nat
    requires g.Valid()
  {
    if n == 0 then 0
    else
      OffNodeHops(g, scheme, src, dest, n - 1) +
      if g.IsLocal(After(g, scheme, src, dest, n - 1), After(g, scheme, src, dest, n)) then 0 else 1
  }

  function MaxHops(scheme: Scheme): nat {
    match scheme
    case NONE => 1
    case NR => 2
    case NLNR => 3
  }

  lemma {:induction false} NextHopExists(g: Layout, scheme: Scheme, me: nat, dest: nat)
    requires g.Valid() && me < g.Size() && dest < g.Size()
    ensures NextHop(g, scheme, me, dest) < g.Size()
  {
    RankFromCoordinates(g, me);
    RankFromCoordinates(g, dest);
    Coordinates(g, g.NodeOf(dest), g.LocalOf(me));
    Coordinates(g, g.NodeOf(me), (g.NodeOf(dest) + g.NodeOf(me)) % g.locals);
  }

  /** A message that has arrived stays. */
  lemma {:induction false} Arrived(g: Layout, scheme: Scheme, src: nat, dest: nat, m: nat, n: nat)
    requires g.Valid() && m <= n && After(g, scheme, src, dest, m) == dest
    ensures After(g, scheme, src, dest, n) == dest
    ensures OffNodeHops(g, scheme, src, dest, n) == OffNodeHops(g, scheme, src, dest, m)
    decreases n
  {
    if m < n {
      Arrived(g, scheme, src, dest, m, n - 1);
    }
  }

  /** Applying the router hop by hop, every message reaches its destination within the
      promised number of hops and leaves its node at most once; a message for another node
      leaves its node exactly once, under NR in the first hop. */
  lemma {:induction false} RouteReaches(g: Layout, scheme: Scheme, src: nat, dest: nat, n: nat)
    requires g.Valid() && src < g.Size() && dest < g.Size() && n >= MaxHops(scheme)
    ensures After(g, scheme, src, dest, n) == dest
    ensures OffNodeHops(g, scheme, src, dest, n) == if g.IsLocal(src, dest) then 0 else 1
    ensures scheme == NR && !g.IsLocal(src, dest) ==> OffNodeHops(g, scheme, src, dest, 1) == 1
  {
    RouteShort(g, scheme, src, dest);
    Arrived(g, scheme, src, dest, MaxHops(scheme), n);
  }

  /** The coordinates of the next hop. */
  lemma {:induction false} HopCoordinates(g: Layout, scheme: Scheme, me: nat, dest: nat)
    requires g.Valid() && scheme != NONE && !g.IsLocal(me, dest)
    ensures var offset := (g.NodeOf(dest) + g.NodeOf(me)) % g.locals; var hop := NextHop(g, scheme, me, dest);
      if scheme == NR || g.LocalOf(me) == offset then
        g.NodeOf(hop) == g.NodeOf(dest) && g.LocalOf(hop) == g.LocalOf(me)
      else
        g.NodeOf(hop) == g.NodeOf(me) && g.LocalOf(hop) == offset
  {
    var offset := (g.NodeOf(dest) + g.NodeOf(me)) % g.locals;
    RankFromCoordinates(g, me);
    Coordinates(g, g.NodeOf(dest), g.LocalOf(me));
    Coordinates(g, g.NodeOf(me), offset);
  }

  lemma {:induction false} OneHop(g: Layout, scheme: Scheme, src: nat, dest: nat, n: nat)
    requires g.Valid() && n > 0
    ensures var was, now := After(g, scheme, src, dest, n - 1), After(g, scheme, src, dest, n);
      && now == NextHop(g, scheme, was, dest)
      && OffNodeHops(g, scheme, src, dest, n) ==
           OffNodeHops(g, scheme, src, dest, n - 1) + if g.NodeOf(was) == g.NodeOf(now) then 0 else 1
  {
  }

  lemma {:induction false} RouteShort(g: Layout, scheme: Scheme, src: nat, dest: nat)
    requires g.Valid() && src < g.Size() && dest < g.Size()
    ensures After(g, scheme, src, dest, MaxHops(scheme)) == dest
    ensures OffNodeHops(g, scheme, src, dest, MaxHops(scheme)) == if g.IsLocal(src, dest) then 0 else 1
    ensures scheme == NR && !g.IsLocal(src, dest) ==> OffNodeHops(g, scheme, src, dest, 1) == 1
  {
    OneHop(g, scheme, src, dest, 1);
    if scheme != NONE {
      OneHop(g, scheme, src, dest, 2);
      if g.IsLocal(src, dest) {
        Arrived(g, scheme, src, dest, 1, MaxHops(scheme));
      } else {
        HopCoordinates(g, scheme, src, dest);
        if scheme == NLNR {
          OneHop(g, scheme, src, dest, 3);
          var one := After(g, scheme, src, dest, 1);
          if !g.IsLocal(one, dest) {
            HopCoordinates(g, scheme, one, dest);
          } else {
            Arrived(g, scheme, src, dest, 2, 3);
          }
        }
      }
    }
  }

  /** Some message makes the off-node hop from `a` to `b`. */
  ghost predicate Talks(g: Layout, scheme: Scheme, a: nat, b: nat)
    requires g.Valid()
  {
    exists dest: nat :: dest < g.Size() && NextHop(g, scheme, a, dest) == b && !g.IsLocal(a, b)
  }

  /** Which pairs of ranks talk across nodes: under NR those with the same local id, under
      NLNR only those whose local id is the sum of their node ids modulo the local size. */
  lemma {:induction false} OffNodePairs(g: Layout, a: nat, b: nat)
    requires g.Valid() && a < g.Size() && b < g.Size()
    ensures Talks(g, NR, a, b) <==> g.NodeOf(a) != g.NodeOf(b) && g.LocalOf(a) == g.LocalOf(b)
    ensures Talks(g, NLNR, a, b) <==>
              && g.NodeOf(a) != g.NodeOf(b) && g.LocalOf(a) == g.LocalOf(b)
              && g.LocalOf(a) == (g.NodeOf(a) + g.NodeOf(b)) % g.locals
    ensures Talks(g, NLNR, a, b) ==> Talks(g, NR, a, b)
    ensures Talks(g, NLNR, a, b) <==> Talks(g, NLNR, b, a)
  {
    PairsFrom(g, a, b);
    PairsFrom(g, b, a);
  }

  lemma {:induction false} PairsFrom(g: Layout, a: nat, b: nat)
    requires g.Valid() && a < g.Size() && b < g.Size()
    ensures Talks(g, NR, a, b) <==> g.NodeOf(a) != g.NodeOf(b) && g.LocalOf(a) == g.LocalOf(b)
    ensures Talks(g, NLNR, a, b) <==>
              && g.NodeOf(a) != g.NodeOf(b) && g.LocalOf(a) == g.LocalOf(b)
              && g.LocalOf(a) == (g.NodeOf(a) + g.NodeOf(b)) % g.locals
  {
    RankFromCoordinates(g, a);
    RankFromCoordinates(g, b);
    forall scheme, dest: nat | dest < g.Size() && NextHop(g, scheme, a, dest) == b && !g.IsLocal(a, b) && scheme != NONE
      ensures b == g.RankOf(g.NodeOf(dest), g.LocalOf(a))
      ensures g.NodeOf(b) == g.NodeOf(dest) && g.LocalOf(b) == g.LocalOf(a)
      ensures scheme == NLNR ==> g.LocalOf(a) == (g.NodeOf(a) + g.NodeOf(b)) % g.locals
    {
      Coordinates(g, g.NodeOf(dest), g.LocalOf(a));
      Coordinates(g, g.NodeOf(a), (g.NodeOf(dest) + g.NodeOf(a)) % g.locals);
    }
    if g.NodeOf(a) != g.NodeOf(b) && g.LocalOf(a) == g.LocalOf(b) {
      assert NextHop(g, NR, a, b) == b;
      if g.LocalOf(a) == (g.NodeOf(a) + g.NodeOf(b)) % g.locals {
        assert NextHop(g, NLNR, a, b) == b;
      }
    }
  }
}
