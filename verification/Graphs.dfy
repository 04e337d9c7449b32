/** Directed graphs over node names: walks, reachability, shortest distances and
    next hops. The mesh modules state their results in these terms. */
module Graphs {
  type Name = string
  type Graph = map<Name, set<Name>>

  ghost predicate Edge(g: Graph, a: Name, b: Name) {
    a in g && b in g[a]
  }

  ghost predicate Symmetric(g: Graph) {
    forall a, b :: Edge(g, a, b) ==> Edge(g, b, a)
  }

  /** No node is listed without an edge. */
  ghost predicate Tight(g: Graph) {
    forall a :: a in g ==> g[a] != {}
  }

  /** A graph without isolated nodes is determined by its edges. */
  lemma SameEdgesSameGraph(g: Graph, h: Graph)
    requires Tight(g) && Tight(h)
    requires forall a, b :: Edge(g, a, b) <==> Edge(h, a, b)
    ensures g == h
  {
    forall a
      ensures a in g <==> a in h
    {
      if a in g { var b :| b in g[a]; assert Edge(g, a, b); }
      if a in h { var b :| b in h[a]; assert Edge(h, a, b); }
    }
    forall a | a in g
      ensures g[a] == h[a]
    {
      assert forall b :: b in g[a] <==> Edge(g, a, b);
      assert forall b :: b in h[a] <==> Edge(h, a, b);
    }
  }

  /** There is a walk of exactly `n` edges from `a` to `b`. */
  ghost predicate Walk(g: Graph, a: Name, b: Name, n: nat)
    decreases n
  {
    if n == 0 then a == b else exists c :: Walk(g, a, c, n - 1) && Edge(g, c, b)
  }

  ghost predicate Reachable(g: Graph, a: Name, b: Name) {
    exists n: nat :: Walk(g, a, b, n)
  }

  ghost predicate IsDist(g: Graph, a: Name, b: Name, d: nat) {
    Walk(g, a, b, d) && forall k: nat :: k < d ==> !Walk(g, a, b, k)
  }

  ghost function Dist(g: Graph, a: Name, b: Name): (d: nat)
    requires Reachable(g, a, b)
    ensures IsDist(g, a, b, d)
  {
    var n: nat :| Walk(g, a, b, n);
    Least(g, a, b, n)
  }

  ghost function Least(g: Graph, a: Name, b: Name, n: nat): (d: nat)
    requires Walk(g, a, b, n)
    ensures IsDist(g, a, b, d)
  {
    if k: nat :| k < n && Walk(g, a, b, k) then Least(g, a, b, k) else n
  }

  lemma DistUnique(g: Graph, a: Name, b: Name, d: nat)
    requires IsDist(g, a, b, d)
    ensures Reachable(g, a, b) && Dist(g, a, b) == d
  {
    if Dist(g, a, b) < d || d < Dist(g, a, b) {
      assert false;
    }
  }

  /** A walk can also be extended at its front. */
  lemma {:induction false} WalkFront(g: Graph, a: Name, b: Name, c: Name, n: nat)
    requires Edge(g, a, b) && Walk(g, b, c, n)
    ensures Walk(g, a, c, n + 1)
    decreases n
  {
    if n == 0 {
      assert Walk(g, a, a, 0);
    } else {
      var m :| Walk(g, b, m, n - 1) && Edge(g, m, c);
      WalkFront(g, a, b, m, n - 1);
    }
  }

  lemma {:induction false} WalkConcat(g: Graph, a: Name, b: Name, c: Name, m: nat, n: nat)
    requires Walk(g, a, b, m) && Walk(g, b, c, n)
    ensures Walk(g, a, c, m + n)
    decreases n
  {
    if n != 0 {
      var x :| Walk(g, b, x, n - 1) && Edge(g, x, c);
      WalkConcat(g, a, b, x, m, n - 1);
    }
  }

  lemma {:induction false} WalkReverse(g: Graph, a: Name, b: Name, n: nat)
    requires Symmetric(g) && Walk(g, a, b, n)
    ensures Walk(g, b, a, n)
    decreases n
  {
    if n != 0 {
      var c :| Walk(g, a, c, n - 1) && Edge(g, c, b);
      WalkReverse(g, a, c, n - 1);
      WalkFront(g, b, c, a, n - 1);
    }
  }

  lemma ReachableTransitive(g: Graph, a: Name, b: Name, c: Name)
    requires Reachable(g, a, b) && Reachable(g, b, c)
    ensures Reachable(g, a, c)
  {
    var m: nat :| Walk(g, a, b, m);
    var n: nat :| Walk(g, b, c, n);
    WalkConcat(g, a, b, c, m, n);
  }

  lemma ReachableReverse(g: Graph, a: Name, b: Name)
    requires Symmetric(g) && Reachable(g, a, b)
    ensures Reachable(g, b, a)
  {
    var n: nat :| Walk(g, a, b, n);
    WalkReverse(g, a, b, n);
  }

  lemma ReachableStep(g: Graph, a: Name, b: Name, c: Name)
    requires Reachable(g, a, b) && Edge(g, b, c)
    ensures Reachable(g, a, c)
  {
    var n: nat :| Walk(g, a, b, n);
    assert Walk(g, a, c, n + 1);
  }

  /** Every node a set contains is kept inside it by its edges. */
  ghost predicate Closed(g: Graph, s: set<Name>) {
    forall a, b :: a in s && Edge(g, a, b) ==> b in s
  }

  lemma {:induction false} ClosedKeepsWalks(g: Graph, s: set<Name>, a: Name, b: Name, n: nat)
    requires Closed(g, s) && a in s && Walk(g, a, b, n)
    ensures b in s
    decreases n
  {
    if n != 0 {
      var c :| Walk(g, a, c, n - 1) && Edge(g, c, b);
      ClosedKeepsWalks(g, s, a, c, n - 1);
    }
  }

  /** The part of a graph that `src` can reach. */
  ghost function Component(g: Graph, src: Name): Graph {
    map k | k in g && Reachable(g, src, k) :: g[k]
  }

  lemma {:induction false} ComponentWalk(g: Graph, src: Name, b: Name, n: nat)
    ensures Walk(Component(g, src), src, b, n) <==> Walk(g, src, b, n)
    decreases n
  {
    var h := Component(g, src);
    if n != 0 {
      forall c
        ensures (Walk(h, src, c, n - 1) && Edge(h, c, b)) <==> (Walk(g, src, c, n - 1) && Edge(g, c, b))
      {
        ComponentWalk(g, src, c, n - 1);
      }
    }
  }

  lemma ComponentReachable(g: Graph, src: Name, b: Name)
    ensures Reachable(Component(g, src), src, b) <==> Reachable(g, src, b)
  {
    forall n: nat
      ensures Walk(Component(g, src), src, b, n) <==> Walk(g, src, b, n)
    {
      ComponentWalk(g, src, b, n);
    }
  }

  /** In a symmetric graph every node of a component has that same component. */
  lemma ComponentShared(g: Graph, a: Name, b: Name)
    requires Symmetric(g) && Reachable(g, a, b)
    ensures Component(g, b) == Component(g, a)
  {
    ReachableReverse(g, a, b);
    forall k
      ensures Reachable(g, a, k) <==> Reachable(g, b, k)
    {
      if Reachable(g, a, k) { ReachableTransitive(g, b, a, k); }
      if Reachable(g, b, k) { ReachableTransitive(g, a, b, k); }
    }
  }

  lemma ComponentSymmetric(g: Graph, src: Name)
    requires Symmetric(g)
    ensures Symmetric(Component(g, src))
  {
    forall a, b | Edge(Component(g, src), a, b)
      ensures Edge(Component(g, src), b, a)
    {
      assert Edge(g, a, b) && Edge(g, b, a);
      ReachableStep(g, src, a, b);
    }
  }

  /** `hop` is where `me` sends a message for `dest`: itself when it is the
      destination, otherwise a neighbour that starts a shortest walk. */
  ghost predicate NextHop(g: Graph, me: Name, dest: Name, hop: Name) {
    Reachable(g, me, dest) &&
    if dest == me then hop == me
    else Edge(g, me, hop) && Reachable(g, hop, dest) && Dist(g, me, dest) == Dist(g, hop, dest) + 1
  }

  /** A full routing table: one shortest-path next hop for every node. */
  ghost predicate RoutesFor(g: Graph, me: Name, routes: map<Name, Name>) {
    routes.Keys == g.Keys &&
    forall v {:trigger NextHop(g, me, v, routes[v])} :: v in routes ==> NextHop(g, me, v, routes[v])
  }

  /** Distinct members of a set cannot outnumber it. */
  lemma {:induction false} DistinctFit(q: seq<Name>, s: set<Name>)
    requires forall i, j :: 0 <= i < j < |q| ==> q[i] != q[j]
    requires forall i :: 0 <= i < |q| ==> q[i] in s
    ensures |q| <= |s|
  {
    if q != [] {
      DistinctFit(q[1..], s - {q[0]});
    }
  }
}
