/** `async_bcast`: the caller sends to every rank of its node, each of them to one partner on
    some of the other nodes, and each partner to the other ranks of its node.

    `Deliveries` lists the ranks that execute the function, in the order of that tree. */
module Broadcast {
  import opened Arithmetic
  import opened Grid
  import opened Sorting

  // ----- what one rank forwards -----

  /** The remainder of C++, which takes the sign of the dividend. */
  function Remainder(a: int, b: nat): int
    requires b > 0
  {
    if a >= 0 then a % b else -((-a) % b)
  }

  /** `node_partner_offset` after the correction of negative remainders. */
  function PartnerOffset(g: Layout, me: nat): int
    requires g.Valid()
  {
    var r := Remainder(g.LocalOf(me) - g.NodeOf(me), g.locals);
    if r < 0 then r + g.locals else r
  }

  function NumLayers(g: Layout): nat
    requires g.Valid()
  {
    g.nodes / g.locals + if g.nodes % g.locals > 0 then 1 else 0
  }

  /** The partners from `curr` on, one for each of the layers left. */
  function PartnersFrom(g: Layout, me: nat, curr: nat, layers: nat): seq<nat>
    requires g.Valid()
    decreases layers
  {
    if layers == 0 || curr >= g.Size() then []
    else (if g.IsLocal(me, curr) then [] else [curr]) + PartnersFrom(g, me, curr + g.locals * g.locals, layers - 1)
  }

  function Partners(g: Layout, me: nat): seq<nat>
    requires g.Valid()
  {
    OffsetRange(g, me);
    if PartnerOffset(g, me) < g.nodes then
      PartnersFrom(g, me, g.RankOf(PartnerOffset(g, me), g.LocalOf(me)), NumLayers(g))
    else
      []
  }

  /** The other ranks of a node, from local id `i` on. */
  function OthersFrom(g: Layout, me: nat, i: nat): seq<nat>
    requires g.Valid()
    decreases g.locals - i
  {
    if i >= g.locals then []
    else (if g.RankOf(g.NodeOf(me), i) == me then [] else [g.RankOf(g.NodeOf(me), i)]) + OthersFrom(g, me, i + 1)
  }

  /** The forwarding of `forward_remote_and_dispatch_lambda`. */
  method ForwardRemote(g: Layout, me: nat) returns (sent: seq<nat>)
    requires g.Valid() && me < g.Size()
    ensures sent == Partners(g, me)
  {
    sent := [];
    OffsetRange(g, me);
    var offset := Remainder(g.LocalOf(me) - g.NodeOf(me), g.locals);
    if offset < 0 {
      offset := offset + g.locals;
    }
    if offset < g.nodes {
      sent := ForwardLayers(g, me, g.RankOf(offset, g.LocalOf(me)), NumLayers(g));  // strided_ranks()[offset]
    }
  }

  lemma {:induction false} PartnersPeel(g: Layout, me: nat, curr: nat, layers: nat, sent: seq<nat>)
    requires g.Valid() && layers > 0 && curr < g.Size()
    ensures var next := PartnersFrom(g, me, curr + g.locals * g.locals, layers - 1);
      sent + PartnersFrom(g, me, curr, layers) == (if g.IsLocal(me, curr) then sent else sent + [curr]) + next
  {
    var next := PartnersFrom(g, me, curr + g.locals * g.locals, layers - 1);
    assert sent + ([curr] + next) == sent + [curr] + next && sent + ([] + next) == sent + next;
  }

  lemma {:induction false} PartnersEnd(g: Layout, me: nat, curr: nat, layers: nat)
    requires g.Valid() && (layers == 0 || curr >= g.Size())
    ensures PartnersFrom(g, me, curr, layers) == []
  {
  }

  /** Its loop over the layers. */
  method ForwardLayers(g: Layout, me: nat, first: nat, layers: nat) returns (sent: seq<nat>)
    requires g.Valid()
    ensures sent == PartnersFrom(g, me, first, layers)
  {
    sent := [];
    var ranksPerLayer := g.locals * g.locals;
    var size := g.Size();
    var curr: nat := first;
    var l: nat := 0;
    hide *;
    while l < layers
      invariant l <= layers
      invariant sent + PartnersFrom(g, me, curr, layers - l) == PartnersFrom(g, me, first, layers)
    {
      if curr >= size {
        break;
      }
      PartnersPeel(g, me, curr, layers - l, sent);
      if !g.IsLocal(me, curr) {
        sent := sent + [curr];
      }
      curr := curr + ranksPerLayer;
      l := l + 1;
    }
    PartnersEnd(g, me, curr, layers - l);
  }

  lemma {:induction false} OthersPeel(g: Layout, me: nat, i: nat, sent: seq<nat>)
    requires g.Valid() && i < g.locals
    ensures var dest, next := g.RankOf(g.NodeOf(me), i), OthersFrom(g, me, i + 1);
      sent + OthersFrom(g, me, i) == (if dest == me then sent else sent + [dest]) + next
  {
    var dest, next := g.RankOf(g.NodeOf(me), i), OthersFrom(g, me, i + 1);
    assert sent + ([dest] + next) == sent + [dest] + next && sent + ([] + next) == sent + next;
  }

  lemma {:induction false} OthersEnd(g: Layout, me: nat)
    requires g.Valid()
    ensures OthersFrom(g, me, g.locals) == []
  {
  }

  /** The loop of `forward_local_and_dispatch_lambda`. */
  method ForwardLocal(g: Layout, me: nat) returns (sent: seq<nat>)
    requires g.Valid()
    ensures sent == OthersFrom(g, me, 0)
  {
    sent := [];
    OthersEnd(g, me);
    hide *;
    for i := 0 to g.locals
      invariant sent + OthersFrom(g, me, i) == OthersFrom(g, me, 0)
    {
      OthersPeel(g, me, i, sent);
      var dest := g.RankOf(g.NodeOf(me), i);        // local_ranks()[i]
      if dest != me {
        sent := sent + [dest];
      }
    }
  }

  // ----- the whole broadcast -----

  /** What a list of remote partners sets off: each executes and serves its node. */
  function FanOut(g: Layout, partners: seq<nat>): seq<nat>
    requires g.Valid()
  {
    if partners == [] then [] else [partners[0]] + OthersFrom(g, partners[0], 0) + FanOut(g, partners[1..])
  }

  /** The executions caused by the first `l` ranks of the node of `src`. */
  function DeliveriesUpTo(g: Layout, src: nat, l: nat): seq<nat>
    requires g.Valid()
  {
    if l == 0 then []
    else
      var r := g.RankOf(g.NodeOf(src), l - 1);
      DeliveriesUpTo(g, src, l - 1) + ([r] + FanOut(g, Partners(g, r)))
  }

  function Deliveries(g: Layout, src: nat): seq<nat>
    requires g.Valid()
  {
    DeliveriesUpTo(g, src, g.locals)
  }

  // ----- counting -----

  /** How many partners lie on a node. */
  function OnNode(g: Layout, s: seq<nat>, node: nat): nat
    requires g.Valid()
  {
    if s == [] then 0 else (if g.NodeOf(s[0]) == node then 1 else 0) + OnNode(g, s[1..], node)
  }

  // ----- which nodes a rank serves -----

  lemma {:induction false} OffsetRange(g: Layout, me: nat)
    requires g.Valid()
    ensures 0 <= PartnerOffset(g, me) < g.locals
    ensures PartnerOffset(g, me) == (g.LocalOf(me) - g.NodeOf(me)) % g.locals
  {
    var a, b := g.LocalOf(me) - g.NodeOf(me), g.locals;
    if a < 0 {
      var q, r := (-a) / b, (-a) % b;
      assert -a == q * b + r;
      if r == 0 {
        assert a == (-q) * b + 0;
        ModUnique(a, b, -q, 0);
      } else {
        assert a == (-q - 1) * b + (b - r);
        ModUnique(a, b, -q - 1, b - r);
      }
    }
  }

  /** Node `n` is served by the rank whose local id is the sum of both node ids. */
  lemma {:induction false} ServedBy(n: nat, home: nat, local: nat, locals: nat)
    requires local < locals
    ensures (local - home) % locals == n % locals <==> local == (n + home) % locals
  {
    if local == (n + home) % locals {
      var q := (n + home) / locals;
      assert n + home == q * locals + local;
      var r := n / locals;
      assert n == r * locals + n % locals;
      assert local - home == (r - q) * locals + n % locals;
      ModUnique(local - home, locals, r - q, n % locals);
    }
    if (local - home) % locals == n % locals {
      var q := (local - home) / locals;
      assert local - home == q * locals + n % locals;
      var r := n / locals;
      assert n == r * locals + n % locals;
      assert n + home == (r - q) * locals + local;
      ModUnique(n + home, locals, r - q, local);
    }
  }

  /** Whether node `n` is `c` or one of the `layers - 1` nodes at multiples of `locals` above it. */
  predicate OnStride(n: nat, c: nat, locals: nat, layers: nat)
    requires locals > 0
  {
    n >= c && (n - c) % locals == 0 && (n - c) / locals < layers
  }

  lemma {:induction false} StrideStep(n: nat, c: nat, locals: nat, layers: nat)
    requires locals > 0 && layers > 0
    ensures OnStride(n, c, locals, layers) <==> n == c || OnStride(n, c + locals, locals, layers - 1)
    ensures !OnStride(c, c + locals, locals, layers - 1)
  {
    if n >= c + locals {
      var d := n - c - locals;
      assert d == (d / locals) * locals + d % locals;
      assert n - c == (d / locals + 1) * locals + d % locals;
      DivModUnique(n - c, locals, d / locals + 1, d % locals);
    } else if n > c {
      DivModUnique(n - c, locals, 0, n - c);
    } else if n == c {
      DivModUnique(0, locals, 0, 0);
    }
  }

  lemma {:induction false} NextLayer(g: Layout, c: nat, local: nat)
    ensures g.RankOf(c, local) + g.locals * g.locals == g.RankOf(c + g.locals, local)
  {
    assert (c + g.locals) * g.locals == c * g.locals + g.locals * g.locals;
  }

  lemma {:induction false} PartnersOnNode(g: Layout, me: nat, c: nat, layers: nat, n: nat)
    requires g.Valid() && n < g.nodes
    ensures OnNode(g, PartnersFrom(g, me, g.RankOf(c, g.LocalOf(me)), layers), n) ==
              if n != g.NodeOf(me) && OnStride(n, c, g.locals, layers) then 1 else 0
    decreases layers
  {
    var curr := g.RankOf(c, g.LocalOf(me));
    Coordinates(g, c, g.LocalOf(me));
    if layers > 0 {
      StrideStep(n, c, g.locals, layers);
      if curr < g.Size() {
        NextLayer(g, c, g.LocalOf(me));
        var rest := PartnersFrom(g, me, curr + g.locals * g.locals, layers - 1);
        PartnersOnNode(g, me, c + g.locals, layers - 1, n);
        assert [] + rest == rest;
      }
    }
  }

  lemma {:induction false} PartnersExist(g: Layout, me: nat, curr: nat, layers: nat, p: nat)
    requires g.Valid() && p in PartnersFrom(g, me, curr, layers)
    ensures p < g.Size()
    decreases layers
  {
    if p in PartnersFrom(g, me, curr + g.locals * g.locals, layers - 1) {
      PartnersExist(g, me, curr + g.locals * g.locals, layers - 1, p);
    }
  }

  /** A rank serves node `n` exactly once when its local id says so, and else not at all. */
  lemma {:induction false} PartnersServe(g: Layout, me: nat, n: nat)
    requires g.Valid() && n < g.nodes
    ensures OnNode(g, Partners(g, me), n) ==
              if n != g.NodeOf(me) && g.LocalOf(me) == (n + g.NodeOf(me)) % g.locals then 1 else 0
    ensures forall p :: p in Partners(g, me) ==> p < g.Size()
  {
    OffsetRange(g, me);
    ServedBy(n, g.NodeOf(me), g.LocalOf(me), g.locals);
    var c := PartnerOffset(g, me);
    OffsetStride(g, n, c);
    forall p | p in Partners(g, me) ensures p < g.Size() {
      PartnersExist(g, me, g.RankOf(c, g.LocalOf(me)), NumLayers(g), p);
    }
    if c < g.nodes {
      PartnersOnNode(g, me, c, NumLayers(g), n);
    }
  }

  lemma {:induction false} OffsetStride(g: Layout, n: nat, c: nat)
    requires g.Valid() && n < g.nodes && c < g.locals
    ensures OnStride(n, c, g.locals, NumLayers(g)) <==> n % g.locals == c
    ensures n % g.locals == c ==> c < g.nodes
  {
    Division(n, g.locals);
    if n % g.locals == c {
      StrideHit(n, c, g.locals, g.nodes);
    } else if n >= c && (n - c) % g.locals == 0 {
      Division(n - c, g.locals);
      DivModUnique(n, g.locals, (n - c) / g.locals, c);
    }
  }

  /** A node at a multiple of the stride is in one of the layers. */
  lemma {:induction false} StrideHit(n: nat, c: nat, locals: nat, nodes: nat)
    requires c < locals && n % locals == c && n < nodes
    ensures c <= n && (n - c) % locals == 0
    ensures (n - c) / locals < nodes / locals + (if nodes % locals > 0 then 1 else 0)
  {
    var q, a := n / locals, nodes / locals;
    Division(n, locals);
    Division(nodes, locals);
    DivModUnique(n - c, locals, q, 0);
    if q > a {
      MulLess(a, q, locals);
    }
  }

  // ----- every rank exactly once -----

  lemma {:induction false} OthersOccur(g: Layout, me: nat, i: nat, r: nat)
    requires g.Valid() && i <= g.locals
    ensures Count(OthersFrom(g, me, i), r) ==
              if r != me && g.NodeOf(r) == g.NodeOf(me) && g.LocalOf(r) >= i then 1 else 0
    decreases g.locals - i
  {
    RankFromCoordinates(g, r);
    if i < g.locals {
      var x := g.RankOf(g.NodeOf(me), i);
      Coordinates(g, g.NodeOf(me), i);
      OthersOccur(g, me, i + 1, r);
      if x != me {
        CountAppend([x], OthersFrom(g, me, i + 1), r);
      } else {
        assert OthersFrom(g, me, i) == [] + OthersFrom(g, me, i + 1) == OthersFrom(g, me, i + 1);
      }
    }
  }

  lemma {:induction false} FanOutOccurs(g: Layout, partners: seq<nat>, r: nat)
    requires g.Valid()
    ensures Count(FanOut(g, partners), r) == OnNode(g, partners, g.NodeOf(r))
  {
    if partners != [] {
      var p := partners[0];
      FanOutOccurs(g, partners[1..], r);
      CountAppend([p] + OthersFrom(g, p, 0), FanOut(g, partners[1..]), r);
      CountAppend([p], OthersFrom(g, p, 0), r);
      OthersOccur(g, p, 0, r);
    }
  }

  lemma {:induction false} DeliveriesOccur(g: Layout, src: nat, l: nat, r: nat)
    requires g.Valid() && src < g.Size() && l <= g.locals && r < g.Size()
    ensures var home, node := g.NodeOf(src), g.NodeOf(r);
      Count(DeliveriesUpTo(g, src, l), r) ==
        if node == home then (if g.LocalOf(r) < l then 1 else 0)
        else if (node + home) % g.locals < l then 1 else 0
  {
    if l > 0 {
      var x := g.RankOf(g.NodeOf(src), l - 1);
      Coordinates(g, g.NodeOf(src), l - 1);
      RankFromCoordinates(g, r);
      DeliveriesOccur(g, src, l - 1, r);
      CountAppend(DeliveriesUpTo(g, src, l - 1), [x] + FanOut(g, Partners(g, x)), r);
      CountAppend([x], FanOut(g, Partners(g, x)), r);
      FanOutOccurs(g, Partners(g, x), r);
      PartnersServe(g, x, g.NodeOf(r));
    }
  }

  /** Every rank executes the broadcast function exactly once, whoever starts it and whatever
      the number of nodes and of ranks per node. */
  lemma {:induction false} EveryRankOnce(g: Layout, src: nat, r: nat)
    requires g.Valid() && src < g.Size() && r < g.Size()
    ensures Count(Deliveries(g, src), r) == 1
  {
    RankFromCoordinates(g, r);
    DeliveriesOccur(g, src, g.locals, r);
  }

  // ----- and no message is wasted -----

  lemma {:induction false} OthersExist(g: Layout, me: nat, i: nat, r: nat)
    requires g.Valid() && me < g.Size() && r in OthersFrom(g, me, i)
    ensures r < g.Size()
    decreases g.locals - i
  {
    RankFromCoordinates(g, me);
    Coordinates(g, g.NodeOf(me), i);
    if r in OthersFrom(g, me, i + 1) {
      OthersExist(g, me, i + 1, r);
    }
  }

  lemma {:induction false} FanOutExists(g: Layout, partners: seq<nat>, r: nat)
    requires g.Valid() && (forall p :: p in partners ==> p < g.Size()) && r in FanOut(g, partners)
    ensures r < g.Size()
  {
    var p := partners[0];
    assert p in partners && forall q :: q in partners[1..] ==> q in partners;
    assert r in [p] || r in OthersFrom(g, p, 0) || r in FanOut(g, partners[1..]);
    if r in OthersFrom(g, p, 0) {
      OthersExist(g, p, 0, r);
    } else if r in FanOut(g, partners[1..]) {
      FanOutExists(g, partners[1..], r);
    }
  }

  lemma {:induction false} DeliveriesExist(g: Layout, src: nat, l: nat, r: nat)
    requires g.Valid() && src < g.Size() && l <= g.locals && r in DeliveriesUpTo(g, src, l)
    ensures r < g.Size()
  {
    var x := g.RankOf(g.NodeOf(src), l - 1);
    Coordinates(g, g.NodeOf(src), l - 1);
    RankFromCoordinates(g, src);
    if r in DeliveriesUpTo(g, src, l - 1) {
      DeliveriesExist(g, src, l - 1, r);
    } else if r in FanOut(g, Partners(g, x)) {
      PartnersServe(g, x, 0);
      FanOutExists(g, Partners(g, x), r);
    }
  }

  /** The occurrences of the ranks below `n`, added up. */
  function Total(s: seq<nat>, n: nat): nat {
    if n == 0 then 0 else Total(s, n - 1) + Count<nat>(s, n - 1)
  }

  lemma {:induction false} TotalCons(s: seq<nat>, n: nat)
    requires s != []
    ensures Total(s, n) == Total(s[1..], n) + if s[0] < n then 1 else 0
  {
    if n > 0 {
      TotalCons(s, n - 1);
    }
  }

  lemma {:induction false} TotalIsLength(s: seq<nat>, n: nat)
    requires forall r :: r in s ==> r < n
    ensures Total(s, n) == |s|
  {
    if s != [] {
      assert s[0] in s && forall r :: r in s[1..] ==> r in s;
      TotalIsLength(s[1..], n);
      TotalCons(s, n);
    } else if n > 0 {
      TotalIsLength(s, n - 1);
    }
  }

  lemma {:induction false} TotalOfOnes(s: seq<nat>, n: nat)
    requires forall r: nat :: r < n ==> Count<nat>(s, r) == 1
    ensures Total(s, n) == n
  {
    if n > 0 {
      var r: nat := n - 1;
      assert Count<nat>(s, r) == 1;
      TotalOfOnes(s, r);
    }
  }

  /** A broadcast costs one message for each rank: nodes times ranks per node in total. */
  lemma {:induction false} MessageCount(g: Layout, src: nat)
    requires g.Valid() && src < g.Size()
    ensures |Deliveries(g, src)| == g.nodes * g.locals
    ensures forall r :: r in Deliveries(g, src) ==> r < g.Size()
  {
    var all := Deliveries(g, src);
    forall r | r in all ensures r < g.Size() {
      DeliveriesExist(g, src, g.locals, r);
    }
    hide *;
    forall r: nat | r < g.Size() ensures Count<nat>(all, r) == 1 {
      EveryRankOnce(g, src, r);
    }
    TotalIsLength(all, g.Size());
    TotalOfOnes(all, g.Size());
  }
}
