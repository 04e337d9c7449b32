/** The mesh node: its reported network, the effective network and the routes it
    derives from it, and the operations that keep the three in step. */
module MeshNode {
  import opened Graphs
  import opened Topology
  import opened Routing
  import opened Sequences
  import Flood

  /** Recorded links are mutual and recorded at both ends. */
  ghost predicate Recorded(net: Mesh, em: Mesh) {
    && (forall a :: a in em ==> em[a] != [])
    && (forall a, b :: b in Adj(em, a) ==> Mutual(net, a, b) && a in Adj(em, b))
  }

  ghost predicate Grows(em: Mesh, em': Mesh) {
    forall a, b :: b in Adj(em, a) ==> b in Adj(em', a)
  }

  function AddLink(em: Mesh, k: Name, i: Name): (r: Mesh) {
    var once := em[k := Adj(em, k) + [i]];
    once[i := Adj(once, i) + [k]]
  }

  lemma AddLinkEdges(em: Mesh, k: Name, i: Name, a: Name, b: Name)
    ensures b in Adj(AddLink(em, k, i), a) <==> b in Adj(em, a) || (a == k && b == i) || (a == i && b == k)
  {
  }

  lemma AddLinkKeeps(net: Mesh, em: Mesh, k: Name, i: Name)
    requires Recorded(net, em) && Mutual(net, k, i)
    ensures Recorded(net, AddLink(em, k, i)) && Grows(em, AddLink(em, k, i))
    ensures i in Adj(AddLink(em, k, i), k)
  {
    var em' := AddLink(em, k, i);
    forall a, b
      ensures b in Adj(em', a) <==> b in Adj(em, a) || (a == k && b == i) || (a == i && b == k)
    {
      AddLinkEdges(em, k, i, a, b);
    }
  }

  /** The links of one reporting node (src/meshage/route.go:22-41). */
  method LinksOf(net: Mesh, k: Name, em0: Mesh) returns (em: Mesh)
    requires Recorded(net, em0)
    ensures Recorded(net, em) && Grows(em0, em)
    ensures forall i :: Mutual(net, k, i) ==> i in Adj(em, k)
  {
    em := em0;
    var v := Adj(net, k);
    for n := 0 to |v|
      invariant Recorded(net, em) && Grows(em0, em)
      invariant forall j :: 0 <= j < n && Mutual(net, k, v[j]) ==> v[j] in Adj(em, k)
    {
      var i := v[n];
      if k in Adj(em, i) {
        continue;
      }
      if k in Adj(net, i) {
        AddLinkKeeps(net, em, k, i);
        em := AddLink(em, k, i);
      }
    }
  }

  /** All mutually reported links, whatever order the map is read in
      (src/meshage/route.go:20-42). */
  method MutualLinks(net: Mesh) returns (em: Mesh)
    ensures AsGraph(em) == MutualGraph(net)
  {
    em := map[];
    var todo := net.Keys;
    while todo != {}
      invariant todo <= net.Keys && Recorded(net, em)
      invariant forall k, i :: k in net && k !in todo && Mutual(net, k, i) ==> i in Adj(em, k)
    {
      var k :| k in todo;
      em := LinksOf(net, k, em);
      todo := todo - {k};
    }
    RecordedAll(net, em);
  }

  lemma RecordedAll(net: Mesh, em: Mesh)
    requires Recorded(net, em)
    requires forall k, i :: k in net && Mutual(net, k, i) ==> i in Adj(em, k)
    ensures AsGraph(em) == MutualGraph(net)
  {
    MutualTight(net);
    forall a | a in em
      ensures AsGraph(em)[a] != {}
    {
      assert em[a][0] in AsGraph(em)[a];
    }
    forall a, b
      ensures Edge(AsGraph(em), a, b) <==> Edge(MutualGraph(net), a, b)
    {
      AdjIsEdge(em, a, b);
      MutualEdge(net, a, b);
    }
    SameEdgesSameGraph(AsGraph(em), MutualGraph(net));
  }

  /** Good routes that cover a connected network are exactly its routing table. */
  lemma RoutesComplete(g: Graph, me: Name, routes: map<Name, Name>)
    requires Symmetric(g) && GoodRoutes(g, me, routes) && g.Keys <= routes.Keys
    requires if g == map[] then routes == map[] else me in g
    ensures RoutesFor(g, me, routes)
  {
    forall k | k in routes
      ensures k in g
    {
      assert NextHop(g, me, k, routes[k]);
      if k != me { ReachableInGraph(g, me, k); }
    }
  }

  lemma NothingUnroutable(net: Mesh, me: Name)
    requires Unroutable(net, me) == {}
    ensures Effective(net, me) == MutualGraph(net)
  {
    assert forall k :: k in MutualGraph(net) ==> k !in Unroutable(net, me);
  }

  lemma StableRoutes(net: Mesh, me: Name, routes: map<Name, Name>)
    requires Unroutable(net, me) == {}
    requires GoodRoutes(MutualGraph(net), me, routes) && MutualGraph(net).Keys <= routes.Keys
    requires MutualGraph(net) == map[] ==> routes == map[]
    ensures RoutesFor(MutualGraph(net), me, routes)
  {
    MutualSymmetric(net);
    NothingUnroutable(net, me);
    if h :| h in MutualGraph(net) { EffectiveHoldsSelf(net, me, h); }
    RoutesComplete(MutualGraph(net), me, routes);
  }

  lemma ReachableInGraph(g: Graph, a: Name, b: Name)
    requires Reachable(g, a, b) && a != b && Symmetric(g)
    ensures b in g
  {
    var n: nat :| Walk(g, a, b, n);
    var c :| Walk(g, a, c, n - 1) && Edge(g, c, b);
    assert Edge(g, b, c);
  }

  /** The number stored for an instance; zero if there is none. */
  function Number(sequences: map<nat, nat>, instance: nat): nat {
    if instance in sequences then sequences[instance] else 0
  }

  /** All nodes of a network but one, in any order. */
  method AllBut(em: Mesh, me: Name) returns (rs: seq<Name>)
    ensures forall v :: v in rs <==> v in em && v != me
    ensures Distinct(rs)
  {
    rs := [];
    var todo := em.Keys;
    while todo != {}
      invariant todo <= em.Keys
      invariant forall v :: v in rs <==> v in em && v !in todo && v != me
      invariant Distinct(rs)
    {
      var k :| k in todo;
      todo := todo - {k};
      if k != me {
        rs := rs + [k];
      }
    }
  }

  class Node {
    const name: Name
    var network: Mesh
    var effectiveNetwork: Mesh
    var routes: map<Name, Name>
    var updateNetwork: bool
    const instance: nat
    var sequences: map<nat, nat>

    /** Unless an update is pending, the effective network and the routes are
        those of the current network. */
    ghost predicate Valid()
      reads this
    {
      !updateNetwork ==>
        AsGraph(effectiveNetwork) == Effective(network, name) &&
        RoutesFor(Effective(network, name), name, routes)
    }

    constructor (name: Name, instance: nat)
      ensures Valid() && this.name == name && network == map[] && !updateNetwork
      ensures this.instance == instance && sequences == map[]
    {
      this.name, this.instance, sequences := name, instance, map[];
      network, effectiveNetwork, routes := map[], map[], map[];
      updateNetwork := false;
      new;
      assert MutualGraph(network) == map[];
    }

    /** Find the next hop for `c`, and for every node visited on the way
        (src/meshage/route.go:77-135). */
    method UpdateRoute(c: Name)
      requires Symmetric(AsGraph(effectiveNetwork))
      requires GoodRoutes(AsGraph(effectiveNetwork), name, routes)
      modifies this`routes
      ensures GoodRoutes(AsGraph(effectiveNetwork), name, routes)
      ensures old(routes).Keys <= routes.Keys
      ensures |effectiveNetwork| == 0 ==> routes == old(routes)
      ensures |effectiveNetwork| != 0 ==> name in routes
      ensures |effectiveNetwork| != 0 && Reachable(AsGraph(effectiveNetwork), name, c) ==> c in routes
    {
      if |effectiveNetwork| == 0 {
        return;
      }
      ghost var g := AsGraph(effectiveNetwork);
      var parent, dist := BreadthFirst(effectiveNetwork, g, name, c);
      routes := RecordHops(g, name, parent, dist, routes);
    }

    /** Make sure there is a route for `h`, if there can be one
        (src/meshage/route.go:55-57). */
    method Learn(h: Name) returns (routed: bool)
      requires Symmetric(AsGraph(effectiveNetwork)) && |effectiveNetwork| != 0
      requires GoodRoutes(AsGraph(effectiveNetwork), name, routes)
      modifies this`routes
      ensures GoodRoutes(AsGraph(effectiveNetwork), name, routes)
      ensures old(routes).Keys <= routes.Keys
      ensures routed <==> h in routes
      ensures routed <==> Reachable(AsGraph(effectiveNetwork), name, h)
    {
      if h !in routes {
        UpdateRoute(h);
      }
      routed := h in routes;
      if routed { assert NextHop(AsGraph(effectiveNetwork), name, h, routes[h]); }
    }

    /** Learn a route for every node of the effective network, in any order, and
        forget the nodes that have none (src/meshage/route.go:53-63). */
    method LearnAll(ghost g: Graph, ghost gone: set<Name>) returns (stable: bool)
      requires g == AsGraph(effectiveNetwork) && Symmetric(g) && routes == map[]
      requires forall h :: h in gone <==> h in g && !Reachable(g, name, h)
      modifies this`network, this`routes
      ensures network == old(network) - gone
      ensures stable <==> gone == {}
      ensures GoodRoutes(g, name, routes) && g.Keys - gone <= routes.Keys
      ensures g == map[] ==> routes == map[]
    {
      AdjIsEdge(effectiveNetwork, name, name);
      assert effectiveNetwork.Keys == g.Keys;
      stable := true;
      var todo := effectiveNetwork.Keys;
      while todo != {}
        invariant todo <= g.Keys
        invariant GoodRoutes(g, name, routes)
        invariant network == old(network) - (gone - todo)
        invariant stable <==> gone <= todo
        invariant g.Keys - todo - gone <= routes.Keys
        invariant todo == g.Keys ==> routes == map[]
      {
        var h :| h in todo;
        var routed := Learn(h);
        if !routed {
          network := network - {h};
          stable := false;
        }
        todo := todo - {h};
      }
    }

    /** One pass over the mutual graph of the network (src/meshage/route.go:20-66). */
    method Pass() returns (stable: bool)
      modifies this`network, this`effectiveNetwork, this`routes
      ensures AsGraph(effectiveNetwork) == MutualGraph(old(network))
      ensures network == Prune(old(network), name)
      ensures stable <==> Unroutable(old(network), name) == {}
      ensures stable ==> RoutesFor(AsGraph(effectiveNetwork), name, routes)
    {
      ghost var net0 := network;
      effectiveNetwork := MutualLinks(network);
      routes := map[];
      MutualSymmetric(net0);
      stable := LearnAll(MutualGraph(net0), Unroutable(net0, name));
      if stable {
        StableRoutes(net0, name, routes);
      }
    }

    /** Prune the network to what this node can reach and learn its routes. Two
        passes are always enough (src/meshage/route.go:16-72). */
    method GenerateEffectiveNetwork() returns (ghost passes: nat)
      modifies this`network, this`effectiveNetwork, this`routes
      ensures AsGraph(effectiveNetwork) == Effective(old(network), name)
      ensures RoutesFor(AsGraph(effectiveNetwork), name, routes)
      ensures network == Prune(old(network), name)
      ensures Effective(network, name) == Effective(old(network), name)
      ensures name in old(network) ==> name in network && network[name] == old(network)[name]
      ensures passes <= 2
    {
      ghost var net0 := network;
      passes := 0;
      var stable := false;
      PruneIdempotent(net0, name);
      PruneIsEffective(net0, name);
      assert Walk(MutualGraph(net0), name, name, 0);
      while !stable
        invariant !stable ==> network == if passes == 0 then net0 else Prune(net0, name)
        invariant passes <= 2 && (!stable ==> passes < 2)
        invariant stable ==> network == Prune(net0, name)
        invariant stable ==> AsGraph(effectiveNetwork) == Effective(net0, name)
        invariant stable ==> RoutesFor(AsGraph(effectiveNetwork), name, routes)
        decreases !stable, 2 - passes
      {
        ghost var before := network;
        stable := Pass();
        passes := passes + 1;
        if stable { NothingUnroutable(before, name); }
      }
    }

    /** src/meshage/node.go:590-597 */
    method CheckUpdateNetwork()
      requires Valid()
      modifies this`network, this`effectiveNetwork, this`routes, this`updateNetwork
      ensures Valid() && !updateNetwork
      ensures Effective(network, name) == Effective(old(network), name)
    {
      if updateNetwork {
        var passes := GenerateEffectiveNetwork();
        updateNetwork := false;
      }
    }

    /** Store an accepted announcement (src/meshage/node.go:554-581). */
    method HandleMSA(source: Name, body: seq<Name>)
      requires Valid()
      modifies this`network, this`updateNetwork
      ensures Valid()
      ensures forall a :: Adj(network, a) == if a == source then body else Adj(old(network), a)
      ensures Effective(network, name) == Effective(old(network)[source := body], name)
      ensures old(updateNetwork) ==> updateNetwork
    {
      if Adj(network, source) == body {
        SameReadingsSameEffective(network, network[source := body], name);
        return;
      }
      network := network[source := body];
      updateNetwork := true;
    }

    /** An announcement arrives: it is stored and flooded on, or dropped
        (src/meshage/message.go:210-223). */
    method ReceiveMSA(from: nat, id: nat, source: Name, body: seq<Name>) returns (flooded: bool)
      requires Valid()
      modifies this`sequences, this`network, this`updateNetwork
      ensures Valid()
      ensures flooded <==> Flood.Accepts(id, Number(old(sequences), from))
      ensures Number(sequences, from) == Flood.Stored(id, Number(old(sequences), from))
      ensures forall i :: i != from ==> Number(sequences, i) == Number(old(sequences), i)
      ensures flooded ==> forall x :: Adj(network, x) == if x == source then body else Adj(old(network), x)
      ensures flooded ==> Effective(network, name) == Effective(old(network)[source := body], name)
      ensures !flooded ==> network == old(network) && updateNetwork == old(updateNetwork)
    {
      if id == 1 && Number(sequences, from) > Flood.LOLLIPOP_LENGTH {
        sequences := sequences[from := 0];
      }
      flooded := id > Number(sequences, from);
      if flooded {
        sequences := sequences[from := id];
        HandleMSA(source, body);
      }
    }

    /** Draw the next number of this instance (src/meshage/node.go:546-552). */
    method Sequence() returns (id: nat)
      modifies this`sequences
      ensures id == Number(old(sequences), instance) + 1
      ensures forall i :: Number(sequences, i) == if i == instance then id else Number(old(sequences), i)
    {
      id := Number(sequences, instance) + 1;
      sequences := sequences[instance := id];
    }

    /** Record the own clients and announce them, unless it is too early or there
        are none. `clients` is the sorted client list
        (src/meshage/node.go:487-544). */
    method Announce(due: bool, clients: seq<Name>) returns (issued: bool, id: nat)
      requires Valid()
      modifies this`sequences, this`network, this`updateNetwork
      ensures Valid()
      ensures issued <==> due && clients != []
      ensures issued ==> id == Number(old(sequences), instance) + 1 == Number(sequences, instance)
      ensures !issued ==> sequences == old(sequences)
      ensures due ==> Effective(network, name) == Effective(old(network)[name := clients], name)
      ensures due ==> forall x :: Adj(network, x) == if x == name then clients else Adj(old(network), x)
      ensures !due ==> network == old(network) && updateNetwork == old(updateNetwork)
    {
      issued, id := false, 0;
      if !due {
        return;
      }
      HandleMSA(name, clients);
      if clients == [] {
        return;
      }
      issued := true;
      id := Sequence();
    }

    /** Everybody a broadcast goes to, after bringing the routes up to date
        (src/meshage/message.go:178-195). */
    method BroadcastRecipients() returns (recipients: seq<Name>)
      requires Valid()
      modifies this`network, this`effectiveNetwork, this`routes, this`updateNetwork
      ensures Valid() && !updateNetwork
      ensures Effective(network, name) == Effective(old(network), name)
      ensures forall v :: v in recipients <==> v in Effective(network, name) && v != name
      ensures Distinct(recipients)
    {
      hide Effective, RoutesFor;
      CheckUpdateNetwork();
      recipients := AllBut(effectiveNetwork, name);
      assert effectiveNetwork.Keys == AsGraph(effectiveNetwork).Keys;
    }
  }
}
