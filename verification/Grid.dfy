/** Ranks on a grid of compute nodes: the lookups of `layout` for nodes with equally many
    ranks, numbered node by node as `nl_to_rank` numbers them. */
module Grid {
  import opened Arithmetic

  datatype Layout = Layout(nodes: nat, locals: nat) {
    ghost predicate Valid() {
      nodes > 0 && locals > 0
    }

    function Size(): nat {
      nodes * locals
    }

    /** `node_id(rank)`. */
    function NodeOf(r: nat): nat
      requires locals > 0
    {
      r / locals
    }

    /** `local_id(rank)`. */
    function LocalOf(r: nat): nat
      requires locals > 0
    {
      r % locals
    }

    /** `nl_to_rank`. */
    function RankOf(node: nat, local: nat): nat {
      node * locals + local
    }

    predicate IsLocal(me: nat, r: nat)
      requires locals > 0
    {
      NodeOf(me) == NodeOf(r)
    }
  }

  /** Node and local ids are the coordinates of a rank: `nl_to_rank` and the lookups are
      mutually inverse, and exactly the coordinates on the grid give ranks. */
  lemma {:induction false} Coordinates(g: Layout, node: nat, local: nat)
    requires g.Valid() && local < g.locals
    ensures g.NodeOf(g.RankOf(node, local)) == node && g.LocalOf(g.RankOf(node, local)) == local
    ensures g.RankOf(node, local) < g.Size() <==> node < g.nodes
  {
    DivModUnique(g.RankOf(node, local), g.locals, node, local);
    if node < g.nodes {
      MulLess(node, g.nodes, g.locals);
    } else if g.nodes < node {
      MulLess(g.nodes, node, g.locals);
    }
  }

  lemma {:induction false} RankFromCoordinates(g: Layout, r: nat)
    requires g.Valid()
    ensures r == g.RankOf(g.NodeOf(r), g.LocalOf(r)) && g.LocalOf(r) < g.locals
    ensures r < g.Size() <==> g.NodeOf(r) < g.nodes
  {
    Coordinates(g, g.NodeOf(r), g.LocalOf(r));
  }
}
