/** Breadth-first search over the effective network, over a channel of bounded
    capacity, and the next hops it yields. */
module Routing {
  import opened Graphs
  import opened Topology

  /** The search tree: `parent` holds the previous hop of every visited node and
      `dist` its exact distance from `src`. */
  ghost predicate Tree(g: Graph, src: Name, parent: map<Name, Name>, dist: map<Name, nat>) {
    && src in parent && parent[src] == src
    && dist.Keys == parent.Keys && dist[src] == 0
    && (forall x {:trigger IsDist(g, src, x, dist[x])} :: x in parent ==> IsDist(g, src, x, dist[x]))
    && (forall x {:trigger TreeEdge(g, parent, dist, x)} ::
          x in parent && x != src ==> TreeEdge(g, parent, dist, x))
  }

  ghost predicate TreeEdge(g: Graph, parent: map<Name, Name>, dist: map<Name, nat>, x: Name)
    requires x in parent && dist.Keys == parent.Keys
  {
    parent[x] in parent && Edge(g, parent[x], x) && dist[x] == dist[parent[x]] + 1
  }

  /** The queue holds visited nodes once each, by distance, at most two levels. */
  ghost predicate Queue(parent: map<Name, Name>, dist: map<Name, nat>, q: seq<Name>) {
    && dist.Keys == parent.Keys
    && (forall i :: 0 <= i < |q| ==> q[i] in parent)
    && (forall i, j :: 0 <= i < j < |q| ==> q[i] != q[j])
    && (forall i, j :: 0 <= i < j < |q| ==> dist[q[i]] <= dist[q[j]])
    && (forall j :: 0 <= j < |q| ==> dist[q[j]] <= dist[q[0]] + 1)
  }

  ghost predicate Search(g: Graph, src: Name, parent: map<Name, Name>, dist: map<Name, nat>, q: seq<Name>) {
    && Tree(g, src, parent, dist)
    && Queue(parent, dist, q)
    && (forall x, y {:trigger Edge(g, x, y)} :: x in parent && x !in q && Edge(g, x, y) ==> y in parent)
  }

  /** Everything as near as the front of the queue has been visited. */
  lemma {:induction false} NearIsVisited(g: Graph, src: Name, parent: map<Name, Name>, dist: map<Name, nat>,
                                         q: seq<Name>, x: Name, k: nat)
    requires Search(g, src, parent, dist, q) && q != []
    requires k <= dist[q[0]] && Walk(g, src, x, k)
    ensures x in parent
    decreases k
  {
    if k != 0 {
      var c :| Walk(g, src, c, k - 1) && Edge(g, c, x);
      NearIsVisited(g, src, parent, dist, q, c, k - 1);
      assert IsDist(g, src, c, dist[c]);
      assert dist[c] <= k - 1;
      assert c !in q;
    }
  }

  lemma DiscoveredDist(g: Graph, src: Name, parent: map<Name, Name>, dist: map<Name, nat>, q: seq<Name>, a: Name)
    requires Search(g, src, parent, dist, q) && q != []
    requires Edge(g, q[0], a) && a !in parent
    ensures IsDist(g, src, a, dist[q[0]] + 1)
  {
    assert IsDist(g, src, q[0], dist[q[0]]);
    forall k: nat | k < dist[q[0]] + 1
      ensures !Walk(g, src, a, k)
    {
      if Walk(g, src, a, k) { NearIsVisited(g, src, parent, dist, q, a, k); }
    }
  }

  lemma QueueGrows(parent: map<Name, Name>, dist: map<Name, nat>, q: seq<Name>, a: Name)
    requires Queue(parent, dist, q) && q != [] && a !in parent
    ensures Queue(parent[a := q[0]], dist[a := dist[q[0]] + 1], q + [a])
  {
  }

  /** Visiting a new neighbour of the front keeps the search invariant. */
  lemma Discover(g: Graph, src: Name, parent: map<Name, Name>, dist: map<Name, nat>, q: seq<Name>, a: Name)
    requires Search(g, src, parent, dist, q) && q != []
    requires Edge(g, q[0], a) && a !in parent
    ensures Search(g, src, parent[a := q[0]], dist[a := dist[q[0]] + 1], q + [a])
  {
    DiscoveredDist(g, src, parent, dist, q, a);
    QueueGrows(parent, dist, q, a);
    var p', d' := parent[a := q[0]], dist[a := dist[q[0]] + 1];
    forall x | x in p' && x != src
      ensures TreeEdge(g, p', d', x)
    {
      if x != a { assert TreeEdge(g, parent, dist, x); }
    }
    forall x | x in p'
      ensures IsDist(g, src, x, d'[x])
    {
      if x != a { assert IsDist(g, src, x, dist[x]); }
    }
    forall x, y | x in p' && x !in q + [a] && Edge(g, x, y)
      ensures y in p'
    {
      assert x in parent && x !in q;
    }
  }

  lemma Dequeue(g: Graph, src: Name, parent: map<Name, Name>, dist: map<Name, nat>, q: seq<Name>)
    requires Search(g, src, parent, dist, q) && q != []
    requires forall y :: Edge(g, q[0], y) ==> y in parent
    ensures Search(g, src, parent, dist, q[1..])
  {
    var r := q[1..];
    assert forall i :: 0 <= i < |r| ==> r[i] == q[i + 1];
    assert Queue(parent, dist, r);
    forall x, y | x in parent && x !in r && Edge(g, x, y)
      ensures y in parent
    {
      assert q == [q[0]] + r;
    }
  }

  /** When the queue runs empty everything reachable has been visited. */
  lemma Exhausted(g: Graph, src: Name, parent: map<Name, Name>, dist: map<Name, nat>, x: Name)
    requires Search(g, src, parent, dist, []) && Reachable(g, src, x)
    ensures x in parent
  {
    var n: nat :| Walk(g, src, x, n);
    assert Closed(g, parent.Keys);
    ClosedKeepsWalks(g, parent.Keys, src, x, n);
  }

  /** The end of a walk that starts with a tree edge of the source. */
  lemma FirstHopIsShortest(g: Graph, src: Name, parent: map<Name, Name>, dist: map<Name, nat>, k: Name, hop: Name)
    requires Tree(g, src, parent, dist) && k in parent && k != src && dist[k] > 0
    requires Edge(g, src, hop) && Walk(g, hop, k, dist[k] - 1)
    ensures NextHop(g, src, k, hop)
  {
    var d := dist[k];
    assert IsDist(g, src, k, d);
    forall j: nat | j < d - 1
      ensures !Walk(g, hop, k, j)
    {
      if Walk(g, hop, k, j) { WalkFront(g, src, hop, k, j); }
    }
    assert IsDist(g, hop, k, d - 1);
    DistUnique(g, src, k, d);
    DistUnique(g, hop, k, d - 1);
  }

  /** Follow previous hops back to the source; the last node before it is the
      next hop (src/meshage/route.go:118-134). */
  method FirstHop(ghost g: Graph, src: Name, parent: map<Name, Name>, ghost dist: map<Name, nat>, k: Name)
    returns (prev: Name)
    requires Tree(g, src, parent, dist) && k in parent
    ensures NextHop(g, src, k, prev)
  {
    var curr := parent[k];
    prev := k;
    assert IsDist(g, src, k, dist[k]);
    DistUnique(g, src, k, dist[k]);
    while curr != src
      invariant prev in parent && curr == parent[prev]
      invariant k != src ==> prev != src
      invariant k == src ==> prev == src
      invariant dist[prev] <= dist[k] && Walk(g, prev, k, dist[k] - dist[prev])
      decreases dist[prev]
    {
      assert TreeEdge(g, parent, dist, prev);
      WalkFront(g, curr, prev, k, dist[k] - dist[prev]);
      prev := curr;
      curr := parent[curr];
    }
    if k != src {
      assert TreeEdge(g, parent, dist, prev);
      FirstHopIsShortest(g, src, parent, dist, k, prev);
    }
  }

  /** A send on a buffered channel that must not block. */
  method Send(q: seq<Name>, a: Name, ghost capacity: nat) returns (r: seq<Name>)
    requires |q| < capacity
    ensures r == q + [a]
  {
    r := q + [a];
  }

  /** Visited nodes lie in the network, as the source does once it has a link. */
  ghost predicate Inside(g: Graph, src: Name, parent: map<Name, Name>) {
    parent.Keys <= g.Keys + {src} && (parent.Keys != {src} ==> src in g)
  }

  /** One new neighbour `a` of the dequeued node `v`: the invariant is kept and
      the channel, one slot per node of the network, has room left. */
  lemma VisitOne(g: Graph, src: Name, parent: map<Name, Name>, dist: map<Name, nat>, v: Name, q: seq<Name>, a: Name)
    requires Symmetric(g) && Inside(g, src, parent)
    requires Search(g, src, parent, dist, [v] + q)
    requires Edge(g, v, a) && a !in parent
    ensures v in dist && Search(g, src, parent[a := v], dist[a := dist[v] + 1], [v] + (q + [a]))
    ensures Inside(g, src, parent[a := v])
    ensures |q| < |g|
  {
    var full := [v] + q;
    assert full[0] == v && Edge(g, a, v);
    Discover(g, src, parent, dist, full, a);
    assert full + [a] == [v] + (q + [a]);
    assert v in parent;
    assert src in g;
    DistinctFit(full, g.Keys);
  }

  lemma VisitDone(g: Graph, src: Name, parent: map<Name, Name>, dist: map<Name, nat>, v: Name, q: seq<Name>)
    requires Search(g, src, parent, dist, [v] + q)
    requires forall y :: Edge(g, v, y) ==> y in parent
    ensures v in parent && Search(g, src, parent, dist, q)
  {
    var full := [v] + q;
    assert full[0] == v && full[1..] == q;
    Dequeue(g, src, parent, dist, full);
  }

  lemma AdjIsEdge(em: Mesh, a: Name, b: Name)
    ensures b in Adj(em, a) <==> Edge(AsGraph(em), a, b)
    ensures |em| == |AsGraph(em)|
  {
    assert em.Keys == AsGraph(em).Keys;
  }

  /** Visit every neighbour of the dequeued node `v` (src/meshage/route.go:103-111). */
  method Visit(em: Mesh, ghost g: Graph, ghost src: Name, v: Name, q0: seq<Name>, parent0: map<Name, Name>,
               ghost dist0: map<Name, nat>)
    returns (q: seq<Name>, parent: map<Name, Name>, ghost dist: map<Name, nat>)
    requires g == AsGraph(em) && Symmetric(g)
    requires Search(g, src, parent0, dist0, [v] + q0) && Inside(g, src, parent0)
    ensures Search(g, src, parent, dist, q) && Inside(g, src, parent)
    ensures v in parent && parent0.Keys <= parent.Keys
    ensures parent.Keys == parent0.Keys ==> q == q0
  {
    q, parent, dist := q0, parent0, dist0;
    var adj := Adj(em, v);
    for i := 0 to |adj|
      invariant Search(g, src, parent, dist, [v] + q) && Inside(g, src, parent)
      invariant parent0.Keys <= parent.Keys
      invariant parent.Keys == parent0.Keys ==> q == q0
      invariant forall j :: 0 <= j < i ==> adj[j] in parent
    {
      var a := adj[i];
      if a !in parent {
        AdjIsEdge(em, v, a);
        VisitOne(g, src, parent, dist, v, q, a);
        q := Send(q, a, |em|);
        parent := parent[a := v];
        dist := dist[a := dist[v] + 1];
      }
    }
    forall y | Edge(g, v, y)
      ensures y in parent
    {
      AdjIsEdge(em, v, y);
    }
    VisitDone(g, src, parent, dist, v, q);
  }

  ghost predicate GoodRoutes(g: Graph, me: Name, routes: map<Name, Name>) {
    forall k {:trigger NextHop(g, me, k, routes[k])} :: k in routes ==> NextHop(g, me, k, routes[k])
  }

  /** Record the next hop of every visited node (src/meshage/route.go:118-134). */
  method RecordHops(ghost g: Graph, me: Name, parent: map<Name, Name>, ghost dist: map<Name, nat>,
                    routes0: map<Name, Name>) returns (routes: map<Name, Name>)
    requires Tree(g, me, parent, dist) && GoodRoutes(g, me, routes0)
    ensures GoodRoutes(g, me, routes) && routes.Keys == routes0.Keys + parent.Keys
  {
    routes := routes0;
    var todo := parent.Keys;
    while todo != {}
      invariant todo <= parent.Keys
      invariant GoodRoutes(g, me, routes)
      invariant routes.Keys == routes0.Keys + (parent.Keys - todo)
    {
      var k :| k in todo;
      var hop := FirstHop(g, me, parent, dist, k);
      routes := routes[k := hop];
      todo := todo - {k};
    }
  }

  /** Breadth-first search from `me` that stops after visiting `c`
      (src/meshage/route.go:86-116). */
  method BreadthFirst(em: Mesh, ghost g: Graph, me: Name, c: Name)
    returns (parent: map<Name, Name>, ghost dist: map<Name, nat>)
    requires g == AsGraph(em) && Symmetric(g) && |em| > 0
    ensures Tree(g, me, parent, dist)
    ensures c in parent <==> Reachable(g, me, c)
  {
    parent, dist := map[me := me], map[me := 0];
    var q := Send([], me, |em|);
    assert IsDist(g, me, me, dist[me]);
    assert Search(g, me, parent, dist, q);
    var found := false;
    while q != [] && !found
      invariant Search(g, me, parent, dist, q) && Inside(g, me, parent)
      invariant found ==> c in parent
      decreases !found, g.Keys + {me} - parent.Keys, |q|
    {
      var v := q[0];
      assert q == [v] + q[1..];
      q, parent, dist := Visit(em, g, me, v, q[1..], parent, dist);
      found := v == c;
    }
    if !found && Reachable(g, me, c) {
      Exhausted(g, me, parent, dist, c);
    }
    if c in parent {
      assert IsDist(g, me, c, dist[c]);
    }
  }
}
