/** What the effective network of a node is, as a function of the adjacency
    lists that the nodes reported: the part of the mutually reported graph that
    the node can reach. */
module Topology {
  import opened Graphs

  type Mesh = map<Name, seq<Name>>

  /** Reading a missing adjacency list yields the empty one. */
  function Adj(net: Mesh, a: Name): seq<Name> {
    if a in net then net[a] else []
  }

  /** Both ends report the link. */
  ghost predicate Mutual(net: Mesh, a: Name, b: Name) {
    b in Adj(net, a) && a in Adj(net, b)
  }

  ghost function MutualGraph(net: Mesh): Graph {
    map a | a in net && (exists b :: Mutual(net, a, b)) :: (set b | b in net[a] && Mutual(net, a, b))
  }

  ghost function Effective(net: Mesh, me: Name): Graph {
    Component(MutualGraph(net), me)
  }

  /** Nodes with some mutual link that `me` has no walk to. */
  ghost function Unroutable(net: Mesh, me: Name): set<Name> {
    set k | k in MutualGraph(net) && !Reachable(MutualGraph(net), me, k)
  }

  ghost function Prune(net: Mesh, me: Name): Mesh {
    net - Unroutable(net, me)
  }

  ghost function AsGraph(em: Mesh): Graph {
    map k | k in em :: (set v | v in em[k])
  }

  lemma MutualEdge(net: Mesh, a: Name, b: Name)
    ensures Edge(MutualGraph(net), a, b) <==> Mutual(net, a, b)
  {
  }

  lemma MutualSymmetric(net: Mesh)
    ensures Symmetric(MutualGraph(net))
  {
    forall a, b
      ensures Edge(MutualGraph(net), a, b) <==> Edge(MutualGraph(net), b, a)
    {
      MutualEdge(net, a, b);
      MutualEdge(net, b, a);
    }
  }

  lemma MutualTight(net: Mesh)
    ensures Tight(MutualGraph(net))
  {
    forall a | a in MutualGraph(net)
      ensures MutualGraph(net)[a] != {}
    {
      var b :| Mutual(net, a, b);
      assert b in MutualGraph(net)[a];
    }
  }

  lemma EffectiveEdge(net: Mesh, me: Name, a: Name, b: Name)
    ensures Edge(Effective(net, me), a, b) <==> Mutual(net, a, b) && Reachable(MutualGraph(net), me, a)
  {
    MutualEdge(net, a, b);
  }

  lemma PruneMutual(net: Mesh, me: Name, a: Name, b: Name)
    ensures Mutual(Prune(net, me), a, b) <==> Mutual(net, a, b) && Reachable(MutualGraph(net), me, a)
  {
    var g := MutualGraph(net);
    MutualEdge(net, a, b);
    MutualEdge(net, b, a);
    if Mutual(net, a, b) {
      if Reachable(g, me, a) { ReachableStep(g, me, a, b); }
      if Reachable(g, me, b) { ReachableStep(g, me, b, a); }
    }
  }

  /** A pruned network is exactly the component: every remaining mutual link
      lies inside it, and no link of the component is lost. */
  lemma PruneIsEffective(net: Mesh, me: Name)
    ensures MutualGraph(Prune(net, me)) == Effective(net, me)
  {
    var p, e := MutualGraph(Prune(net, me)), Effective(net, me);
    MutualTight(Prune(net, me));
    MutualTight(net);
    forall a, b
      ensures Edge(p, a, b) <==> Edge(e, a, b)
    {
      MutualEdge(Prune(net, me), a, b);
      PruneMutual(net, me, a, b);
      EffectiveEdge(net, me, a, b);
    }
    SameEdgesSameGraph(p, e);
  }

  /** Pruning changes nothing the second time. */
  lemma PruneIdempotent(net: Mesh, me: Name)
    ensures Effective(Prune(net, me), me) == Effective(net, me)
    ensures Unroutable(Prune(net, me), me) == {}
  {
    var e := Effective(net, me);
    PruneIsEffective(net, me);
    forall k
      ensures Reachable(e, me, k) <==> Reachable(MutualGraph(net), me, k)
    {
      ComponentReachable(MutualGraph(net), me, k);
    }
  }

  /** Every node of an effective network computes that same network. */
  lemma EffectiveAgrees(net: Mesh, a: Name, b: Name)
    requires b in Effective(net, a)
    ensures Effective(net, b) == Effective(net, a)
  {
    MutualSymmetric(net);
    ComponentShared(MutualGraph(net), a, b);
  }

  lemma EffectiveSymmetric(net: Mesh, me: Name)
    ensures Symmetric(Effective(net, me))
  {
    MutualSymmetric(net);
    ComponentSymmetric(MutualGraph(net), me);
  }

  /** Two networks that read alike have the same effective network, so an empty
      announcement from an unknown node can be ignored. */
  lemma SameReadingsSameEffective(p: Mesh, q: Mesh, me: Name)
    requires forall a :: Adj(p, a) == Adj(q, a)
    ensures Effective(p, me) == Effective(q, me)
  {
    MutualTight(p);
    MutualTight(q);
    forall a, b
      ensures Edge(MutualGraph(p), a, b) <==> Edge(MutualGraph(q), a, b)
    {
      MutualEdge(p, a, b);
      MutualEdge(q, a, b);
    }
    SameEdgesSameGraph(MutualGraph(p), MutualGraph(q));
  }

  /** An effective network holds its own node unless it is empty. */
  lemma EffectiveHoldsSelf(net: Mesh, me: Name, k: Name)
    requires k in Effective(net, me)
    ensures me in Effective(net, me)
  {
    var g := MutualGraph(net);
    MutualSymmetric(net);
    assert Walk(g, me, me, 0);
    if k != me {
      ReachableReverse(g, me, k);
      var n: nat :| Walk(g, k, me, n);
      var c :| Walk(g, k, c, n - 1) && Edge(g, c, me);
      assert Edge(g, me, c);
    }
  }
}
