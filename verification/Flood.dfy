/** Flooding one mesh state announcement: sequence numbers, the route list, and
    any interleaving with older announcements of the same instance. */
module Flood {
  import opened Graphs
  import opened Sequences

  const LOLLIPOP_LENGTH: nat := 16

  /** The stored sequence number after the lollipop check (src/meshage/message.go:212-214). */
  function Lowered(id: nat, stored: nat): nat {
    if id == 1 && stored > LOLLIPOP_LENGTH then 0 else stored
  }

  predicate Accepts(id: nat, stored: nat) {
    id > Lowered(id, stored)
  }

  /** The stored sequence number after handling `id` (src/meshage/message.go:211-223). */
  function Stored(id: nat, stored: nat): nat {
    if Accepts(id, stored) then id else Lowered(id, stored)
  }

  /** The number 1 is taken for a restart just when the stored one is above 16 or
      there is none; any other number must be above the stored one. */
  lemma AcceptsIff(id: nat, stored: nat)
    ensures Accepts(id, stored) <==> if id == 1 then stored == 0 || stored > 16 else id > stored
    ensures Accepts(id, stored) ==> Stored(id, stored) == id
    ensures !Accepts(id, stored) ==> Stored(id, stored) == stored
  {
  }

  /** Work in progress: a flood waiting to run at `at`, or a copy on its way to
      the client `at`. `route` is the message's current route. */
  datatype Item = Spreading(at: Name, route: seq<Name>) | Copy(at: Name, route: seq<Name>)

  /** `accepted` lists the nodes that stored the announcement, in order. */
  datatype State = State(stored: map<Name, nat>, items: seq<Item>, accepted: seq<Name>)

  datatype Label = Deliver(i: nat) | Spread(i: nat) | Older(node: Name, id: nat)

  function SeqOf(stored: map<Name, nat>, x: Name): nat {
    if x in stored then stored[x] else 0
  }

  /** The originator has just drawn the number `id` (src/meshage/node.go:535-552). */
  ghost predicate Init(src: Name, id: nat, s: State) {
    && SeqOf(s.stored, src) == id
    && s.items == [Spreading(src, [src])] && s.accepted == [src]
  }

  /** A copy reaches its client (src/meshage/message.go:207-223). */
  ghost predicate DeliverStep(id: nat, s: State, s': State, i: nat) {
    i < |s.items| && s.items[i].Copy? &&
    var c := s.items[i];
    var rest := s.items[..i] + s.items[i + 1..];
    if Accepts(id, SeqOf(s.stored, c.at)) then
      s' == State(s.stored[c.at := Stored(id, SeqOf(s.stored, c.at))],
                  rest + [Spreading(c.at, c.route + [c.at])], s.accepted + [c.at])
    else
      s' == State(s.stored, rest, s.accepted)
  }

  /** A flood sends a copy to every client that is not on the route, in any order
      (src/meshage/message.go:250-275). */
  ghost predicate SpreadStep(clients: Graph, s: State, s': State, i: nat) {
    i < |s.items| && s.items[i].Spreading? &&
    var f := s.items[i];
    var rest := s.items[..i] + s.items[i + 1..];
    && s'.stored == s.stored && s'.accepted == s.accepted
    && |rest| <= |s'.items| && s'.items[..|rest|] == rest
    && CopiesTo(clients, f, s'.items[|rest|..])
  }

  ghost predicate CopiesTo(clients: Graph, f: Item, out: seq<Item>) {
    && (forall j :: 0 <= j < |out| ==> out[j].Copy? && out[j].route == f.route)
    && (forall j :: 0 <= j < |out| ==> Edge(clients, f.at, out[j].at) && out[j].at !in f.route)
    && (forall k :: Edge(clients, f.at, k) && k !in f.route ==> Copy(k, f.route) in out)
    && (forall j, k :: 0 <= j < k < |out| ==> out[j].at != out[k].at)
  }

  /** Some node handles an older announcement of the same instance. */
  ghost predicate OlderStep(id: nat, s: State, s': State, x: Name, older: nat) {
    older < id && s' == s.(stored := s.stored[x := Stored(older, SeqOf(s.stored, x))])
  }

  /** The lollipop check makes `x` forget that it had stored `id` or a later
      number. */
  ghost predicate Forgets(id: nat, s: State, x: Name, older: nat) {
    older == 1 && SeqOf(s.stored, x) > LOLLIPOP_LENGTH && SeqOf(s.stored, x) >= id
  }

  ghost predicate Step(clients: Graph, id: nat, s: State, l: Label, s': State) {
    match l
    case Deliver(i) => DeliverStep(id, s, s', i)
    case Spread(i) => SpreadStep(clients, s, s', i)
    case Older(x, older) => OlderStep(id, s, s', x, older) && !Forgets(id, s, x, older)
  }

  /** Nodes that would accept the announcement when it is issued. */
  ghost predicate Fresh(s0: State, id: nat, x: Name) {
    Accepts(id, SeqOf(s0.stored, x))
  }

  /** The client graph restricted to links into fresh nodes. */
  ghost function FreshGraph(clients: Graph, s0: State, id: nat): Graph {
    map x | x in clients :: (set y | y in clients[x] && Fresh(s0, id, y))
  }

  // The invariant

  /** Nobody appears twice on a route, everybody on it has accepted, and a copy
      is never on its way to a node of its own route. */
  ghost predicate ItemOk(clients: Graph, accepted: seq<Name>, it: Item) {
    && it.route != [] && Distinct(it.route)
    && (forall x :: x in it.route ==> x in accepted)
    && match it
       case Spreading(at, route) => route[|route| - 1] == at
       case Copy(at, route) => at !in route && Edge(clients, route[|route| - 1], at)
  }

  ghost predicate Numbers(s0: State, id: nat, src: Name, s: State) {
    && (forall x :: x in s.accepted ==> SeqOf(s.stored, x) == id && (x == src || Fresh(s0, id, x)))
    && (forall x :: x !in s.accepted ==> (Accepts(id, SeqOf(s.stored, x)) <==> Fresh(s0, id, x)))
  }

  /** A client of a node that accepted is settled, or something is under way to it. */
  ghost predicate Covered(s0: State, id: nat, s: State, x: Name, y: Name) {
    || y in s.accepted
    || !Fresh(s0, id, y)
    || (exists it :: it in s.items && Serves(it, x, y))
  }

  /** The item will bring the announcement from `x` to its client `y`. */
  ghost predicate Serves(it: Item, x: Name, y: Name) {
    if it.Copy? then it.at == y else it.at == x && y !in it.route
  }

  ghost predicate Inv(clients: Graph, s0: State, id: nat, src: Name, s: State) {
    && src in s.accepted && Distinct(s.accepted)
    && Numbers(s0, id, src, s)
    && (forall it :: it in s.items ==> ItemOk(clients, s.accepted, it))
    && (forall x :: x in s.accepted ==> Reachable(FreshGraph(clients, s0, id), src, x))
    && (forall x, y :: x in s.accepted && Edge(clients, x, y) ==> Covered(s0, id, s, x, y))
  }

  lemma InitInv(clients: Graph, id: nat, src: Name, s0: State)
    requires Init(src, id, s0)
    ensures Inv(clients, s0, id, src, s0)
  {
    assert Walk(FreshGraph(clients, s0, id), src, src, 0);
    forall x, y | x in s0.accepted && Edge(clients, x, y)
      ensures Covered(s0, id, s0, x, y)
    {
      assert Serves(s0.items[0], x, y) || y == src;
    }
  }

  /** An older announcement disturbs this one exactly when it makes a node
      forget. */
  lemma OlderKeepsInvIff(clients: Graph, s0: State, id: nat, src: Name, s: State, s': State, x: Name, older: nat)
    requires Inv(clients, s0, id, src, s) && OlderStep(id, s, s', x, older)
    ensures Inv(clients, s0, id, src, s') <==> !Forgets(id, s, x, older)
  {
    if Forgets(id, s, x, older) {
      assert SeqOf(s'.stored, x) == 1;
      if x !in s.accepted { assert Accepts(id, SeqOf(s'.stored, x)) && !Accepts(id, SeqOf(s.stored, x)); }
    } else {
      forall a, b | a in s'.accepted && Edge(clients, a, b)
        ensures Covered(s0, id, s', a, b)
      {
        assert Covered(s0, id, s, a, b);
      }
    }
  }

  lemma Without<T>(s: seq<T>, i: nat, x: T)
    requires i < |s|
    ensures x in s[..i] + s[i + 1..] ==> x in s
    ensures x in s ==> x == s[i] || x in s[..i] + s[i + 1..]
  {
    assert s == s[..i] + [s[i]] + s[i + 1..];
  }

  lemma DropInv(clients: Graph, s0: State, id: nat, src: Name, s: State, s': State, i: nat)
    requires Inv(clients, s0, id, src, s)
    requires DeliverStep(id, s, s', i) && !Accepts(id, SeqOf(s.stored, s.items[i].at))
    ensures Inv(clients, s0, id, src, s')
  {
    var c := s.items[i];
    forall it | it in s'.items
      ensures ItemOk(clients, s'.accepted, it)
    {
      Without(s.items, i, it);
    }
    forall x, y | x in s'.accepted && Edge(clients, x, y)
      ensures Covered(s0, id, s', x, y)
    {
      assert Covered(s0, id, s, x, y);
      if y !in s.accepted && Fresh(s0, id, y) {
        assert y != c.at;
        var it :| it in s.items && Serves(it, x, y);
        Without(s.items, i, it);
      }
    }
  }

  lemma AcceptItems(clients: Graph, s0: State, id: nat, src: Name, s: State, s': State, i: nat, it: Item)
    requires Inv(clients, s0, id, src, s)
    requires DeliverStep(id, s, s', i) && Accepts(id, SeqOf(s.stored, s.items[i].at))
    requires it in s'.items
    ensures ItemOk(clients, s'.accepted, it)
  {
    var c := s.items[i];
    assert ItemOk(clients, s.accepted, c);
    Without(s.items, i, it);
    if it in s.items { assert ItemOk(clients, s.accepted, it); }
  }

  lemma AcceptCovers(clients: Graph, s0: State, id: nat, src: Name, s: State, s': State, i: nat, x: Name, y: Name)
    requires Inv(clients, s0, id, src, s)
    requires DeliverStep(id, s, s', i) && Accepts(id, SeqOf(s.stored, s.items[i].at))
    requires x in s'.accepted && Edge(clients, x, y)
    ensures Covered(s0, id, s', x, y)
  {
    var c := s.items[i];
    if y !in s'.accepted && Fresh(s0, id, y) {
      if x == c.at {
        var f := Spreading(c.at, c.route + [c.at]);
        assert ItemOk(clients, s.accepted, c);
        assert f in s'.items && Serves(f, x, y);
      } else {
        assert Covered(s0, id, s, x, y);
        var it :| it in s.items && Serves(it, x, y);
        Without(s.items, i, it);
        assert it in s'.items;
      }
    }
  }

  lemma AcceptNumbers(clients: Graph, s0: State, id: nat, src: Name, s: State, s': State, i: nat)
    requires Inv(clients, s0, id, src, s)
    requires DeliverStep(id, s, s', i) && Accepts(id, SeqOf(s.stored, s.items[i].at))
    ensures Numbers(s0, id, src, s') && Distinct(s'.accepted) && s.items[i].at !in s.accepted
  {
  }

  lemma AcceptInv(clients: Graph, s0: State, id: nat, src: Name, s: State, s': State, i: nat)
    requires Inv(clients, s0, id, src, s)
    requires DeliverStep(id, s, s', i) && Accepts(id, SeqOf(s.stored, s.items[i].at))
    ensures Inv(clients, s0, id, src, s')
  {
    var c := s.items[i];
    var g := FreshGraph(clients, s0, id);
    AcceptNumbers(clients, s0, id, src, s, s', i);
    assert ItemOk(clients, s.accepted, c);
    var last := c.route[|c.route| - 1];
    assert last in c.route;
    assert Edge(g, last, c.at);
    ReachableStep(g, src, last, c.at);
    forall it | it in s'.items
      ensures ItemOk(clients, s'.accepted, it)
    {
      AcceptItems(clients, s0, id, src, s, s', i, it);
    }
    forall x, y | x in s'.accepted && Edge(clients, x, y)
      ensures Covered(s0, id, s', x, y)
    {
      AcceptCovers(clients, s0, id, src, s, s', i, x, y);
    }
  }

  lemma SpreadItems(clients: Graph, s0: State, id: nat, src: Name, s: State, s': State, i: nat, it: Item)
    requires Inv(clients, s0, id, src, s) && SpreadStep(clients, s, s', i)
    requires it in s'.items
    ensures ItemOk(clients, s'.accepted, it)
  {
    var f := s.items[i];
    var rest := s.items[..i] + s.items[i + 1..];
    assert ItemOk(clients, s.accepted, f);
    assert s'.items == rest + s'.items[|rest|..];
    if it in rest { Without(s.items, i, it); }
  }

  lemma SpreadCovers(clients: Graph, s0: State, id: nat, src: Name, s: State, s': State, i: nat, x: Name, y: Name)
    requires Inv(clients, s0, id, src, s) && SpreadStep(clients, s, s', i)
    requires x in s'.accepted && Edge(clients, x, y)
    ensures Covered(s0, id, s', x, y)
  {
    var f := s.items[i];
    var rest := s.items[..i] + s.items[i + 1..];
    assert s'.items == rest + s'.items[|rest|..];
    assert Covered(s0, id, s, x, y);
    if y !in s'.accepted && Fresh(s0, id, y) {
      var it :| it in s.items && Serves(it, x, y);
      Without(s.items, i, it);
      if it == f {
        assert Copy(y, f.route) in s'.items;
        assert Serves(Copy(y, f.route), x, y);
      } else {
        assert it in s'.items;
      }
    }
  }

  lemma SpreadInv(clients: Graph, s0: State, id: nat, src: Name, s: State, s': State, i: nat)
    requires Inv(clients, s0, id, src, s) && SpreadStep(clients, s, s', i)
    ensures Inv(clients, s0, id, src, s')
  {
    forall it | it in s'.items
      ensures ItemOk(clients, s'.accepted, it)
    {
      SpreadItems(clients, s0, id, src, s, s', i, it);
    }
    forall x, y | x in s'.accepted && Edge(clients, x, y)
      ensures Covered(s0, id, s', x, y)
    {
      SpreadCovers(clients, s0, id, src, s, s', i, x, y);
    }
  }

  lemma StepInv(clients: Graph, s0: State, id: nat, src: Name, s: State, l: Label, s': State)
    requires Inv(clients, s0, id, src, s) && Step(clients, id, s, l, s')
    ensures Inv(clients, s0, id, src, s')
  {
    match l {
      case Deliver(i) =>
        if Accepts(id, SeqOf(s.stored, s.items[i].at)) {
          AcceptInv(clients, s0, id, src, s, s', i);
        } else {
          DropInv(clients, s0, id, src, s, s', i);
        }
      case Spread(i) => SpreadInv(clients, s0, id, src, s, s', i);
      case Older(x, older) => OlderKeepsInvIff(clients, s0, id, src, s, s', x, older);
    }
  }

  // Termination

  ghost function Weight(n: nat, it: Item): nat {
    if it.Copy? then 1 else n + 1
  }

  ghost function Load(n: nat, items: seq<Item>): nat {
    if items == [] then 0 else Weight(n, items[0]) + Load(n, items[1..])
  }

  lemma {:induction false} LoadSplit(n: nat, a: seq<Item>, b: seq<Item>)
    ensures Load(n, a + b) == Load(n, a) + Load(n, b)
  {
    if a == [] {
      assert a + b == b;
    } else {
      assert (a + b)[1..] == a[1..] + b;
      LoadSplit(n, a[1..], b);
    }
  }

  lemma LoadWithout(n: nat, s: seq<Item>, i: nat)
    requires i < |s|
    ensures Load(n, s[..i] + s[i + 1..]) + Weight(n, s[i]) == Load(n, s)
  {
    assert s == s[..i] + ([s[i]] + s[i + 1..]);
    LoadSplit(n, s[..i], [s[i]] + s[i + 1..]);
    LoadSplit(n, [s[i]], s[i + 1..]);
    LoadSplit(n, s[..i], s[i + 1..]);
  }

  lemma {:induction false} LoadOfCopies(n: nat, out: seq<Item>)
    requires forall j :: 0 <= j < |out| ==> out[j].Copy?
    ensures Load(n, out) == |out|
  {
    if out != [] { LoadOfCopies(n, out[1..]); }
  }

  /** Decreases with every step of the announcement itself: a node that has not
      accepted counts for a whole flood, a flood for a copy to everybody. */
  ghost function Potential(n: nat, s: State): int {
    (n - |s.accepted|) * (n + 2) + Load(n, s.items)
  }

  /** All nodes of the mesh: the originator and everybody's clients. */
  ghost predicate Mesh(clients: Graph, nodes: set<Name>, src: Name) {
    src in nodes && forall a, b :: Edge(clients, a, b) ==> b in nodes
  }

  lemma AcceptedAreNodes(clients: Graph, nodes: set<Name>, s0: State, id: nat, src: Name, s: State, x: Name)
    requires Mesh(clients, nodes, src) && Inv(clients, s0, id, src, s) && x in s.accepted
    ensures x in nodes
  {
    var g := FreshGraph(clients, s0, id);
    var n: nat :| Walk(g, src, x, n);
    if n != 0 {
      var c :| Walk(g, src, c, n - 1) && Edge(g, c, x);
      assert Edge(clients, c, x);
    }
  }

  lemma AcceptedFit(clients: Graph, nodes: set<Name>, s0: State, id: nat, src: Name, s: State)
    requires Mesh(clients, nodes, src) && Inv(clients, s0, id, src, s)
    ensures |s.accepted| <= |nodes|
  {
    forall i | 0 <= i < |s.accepted|
      ensures s.accepted[i] in nodes
    {
      AcceptedAreNodes(clients, nodes, s0, id, src, s, s.accepted[i]);
    }
    DistinctFit(s.accepted, nodes);
  }

  lemma SpreadFits(clients: Graph, nodes: set<Name>, src: Name, f: Item, out: seq<Item>)
    requires Mesh(clients, nodes, src) && CopiesTo(clients, f, out)
    ensures |out| <= |nodes|
  {
    var at := seq(|out|, j requires 0 <= j < |out| => out[j].at);
    DistinctFit(at, nodes);
  }

  lemma SpreadLowers(clients: Graph, nodes: set<Name>, src: Name, s: State, s': State, i: nat)
    requires Mesh(clients, nodes, src) && SpreadStep(clients, s, s', i)
    ensures Potential(|nodes|, s') < Potential(|nodes|, s)
  {
    var n, rest := |nodes|, s.items[..i] + s.items[i + 1..];
    var out := s'.items[|rest|..];
    assert s'.items == rest + out;
    LoadWithout(n, s.items, i);
    LoadSplit(n, rest, out);
    LoadOfCopies(n, out);
    SpreadFits(clients, nodes, src, s.items[i], out);
  }

  lemma DeliverLowers(n: nat, id: nat, s: State, s': State, i: nat)
    requires DeliverStep(id, s, s', i)
    ensures Potential(n, s') < Potential(n, s)
  {
    var c, rest := s.items[i], s.items[..i] + s.items[i + 1..];
    LoadWithout(n, s.items, i);
    if Accepts(id, SeqOf(s.stored, c.at)) {
      var f := [Spreading(c.at, c.route + [c.at])];
      LoadSplit(n, rest, f);
      assert f[1..] == [];
      var u := n - |s.accepted|;
      assert n - |s'.accepted| == u - 1;
      assert (u - 1) * (n + 2) == u * (n + 2) - (n + 2);
    }
  }

  // Runs

  /** Steps that handle the announcement itself. */
  ghost function Own(labels: seq<Label>): nat {
    if labels == [] then 0
    else Own(labels[..|labels| - 1]) + if labels[|labels| - 1].Older? then 0 else 1
  }

  ghost predicate Run(clients: Graph, id: nat, src: Name, states: seq<State>, labels: seq<Label>) {
    && |states| == |labels| + 1 && Init(src, id, states[0])
    && forall i :: 0 <= i < |labels| ==> Step(clients, id, states[i], labels[i], states[i + 1])
  }

  lemma StepLowers(clients: Graph, nodes: set<Name>, src: Name, id: nat, s: State, l: Label, s': State)
    requires Mesh(clients, nodes, src) && Step(clients, id, s, l, s')
    ensures Potential(|nodes|, s') + (if l.Older? then 0 else 1) <= Potential(|nodes|, s)
  {
    match l {
      case Deliver(i) => DeliverLowers(|nodes|, id, s, s', i);
      case Spread(i) => SpreadLowers(clients, nodes, src, s, s', i);
      case Older(_, _) =>
    }
  }

  lemma {:induction false} RunInv(clients: Graph, id: nat, src: Name, states: seq<State>, labels: seq<Label>)
    requires Run(clients, id, src, states, labels)
    ensures Inv(clients, states[0], id, src, states[|labels|])
    decreases |labels|
  {
    var n := |labels|;
    if n == 0 {
      InitInv(clients, id, src, states[0]);
    } else {
      RunInv(clients, id, src, states[..n], labels[..n - 1]);
      StepInv(clients, states[0], id, src, states[n - 1], labels[n - 1], states[n]);
    }
  }

  lemma {:induction false} RunLowers(clients: Graph, nodes: set<Name>, id: nat, src: Name, states: seq<State>,
                                     labels: seq<Label>)
    requires Mesh(clients, nodes, src) && Run(clients, id, src, states, labels)
    ensures Own(labels) + Potential(|nodes|, states[|labels|]) <= Potential(|nodes|, states[0])
    decreases |labels|
  {
    var n := |labels|;
    if n != 0 {
      RunLowers(clients, nodes, id, src, states[..n], labels[..n - 1]);
      StepLowers(clients, nodes, src, id, states[n - 1], labels[n - 1], states[n]);
    }
  }

  /** When nothing is under way, exactly the nodes joined to the originator by
      fresh nodes have accepted. */
  lemma QuiescentCoverage(clients: Graph, s0: State, id: nat, src: Name, s: State, x: Name)
    requires Inv(clients, s0, id, src, s) && s.items == []
    ensures x in s.accepted <==> Reachable(FreshGraph(clients, s0, id), src, x)
  {
    var g := FreshGraph(clients, s0, id);
    if Reachable(g, src, x) {
      var done := set y | y in s.accepted;
      forall a, b | a in done && Edge(g, a, b)
        ensures b in done
      {
        assert Edge(clients, a, b);
        assert Covered(s0, id, s, a, b);
      }
      var n: nat :| Walk(g, src, x, n);
      ClosedKeepsWalks(g, done, src, x, n);
    }
  }

  lemma PotentialOfInit(n: nat, src: Name, id: nat, s: State)
    requires Init(src, id, s)
    ensures Potential(n, s) == (n - 1) * (n + 2) + n + 1
  {
    assert s.items[1..] == [] && Load(n, s.items) == Weight(n, s.items[0]) + Load(n, []);
    assert |s.accepted| == 1 && n - |s.accepted| == n - 1;
  }

  lemma PotentialNotNegative(n: nat, s: State)
    requires |s.accepted| <= n
    ensures Potential(n, s) >= 0
  {
    var u: nat := n - |s.accepted|;
    assert u * (n + 2) >= 0;
  }

  lemma FloodBound(clients: Graph, nodes: set<Name>, id: nat, src: Name, states: seq<State>, labels: seq<Label>)
    requires Mesh(clients, nodes, src) && Run(clients, id, src, states, labels)
    ensures Own(labels) <= (|nodes| - 1) * (|nodes| + 2) + |nodes| + 1
  {
    hide Inv, Step, Init;
    assert |states[|labels|].accepted| <= |nodes| by {
      RunInv(clients, id, src, states, labels);
      AcceptedFit(clients, nodes, states[0], id, src, states[|labels|]);
    }
    PotentialNotNegative(|nodes|, states[|labels|]);
    PotentialOfInit(|nodes|, src, id, states[0]);
    RunLowers(clients, nodes, id, src, states, labels);
  }

  /** Every run of an announcement, interleaved with any older ones that do not
      trip the lollipop reset: a bounded number of its own steps, no route that
      repeats a node, no node that accepts twice, and, once nothing is under way,
      acceptance by exactly the nodes that fresh nodes connect to the originator. */
  lemma FloodCovers(clients: Graph, nodes: set<Name>, id: nat, src: Name, states: seq<State>, labels: seq<Label>)
    requires Mesh(clients, nodes, src) && Run(clients, id, src, states, labels)
    ensures var n, last := |nodes|, states[|labels|];
      && Own(labels) <= (n - 1) * (n + 2) + n + 1
      && (forall it :: it in last.items ==> Distinct(it.route))
      && Distinct(last.accepted)
      && (last.items == [] ==>
            forall x :: x in last.accepted <==> Reachable(FreshGraph(clients, states[0], id), src, x))
  {
    var n, s0, last := |nodes|, states[0], states[|labels|];
    FloodBound(clients, nodes, id, src, states, labels);
    RunInv(clients, id, src, states, labels);
    forall it | it in last.items
      ensures Distinct(it.route)
    {
      assert ItemOk(clients, last.accepted, it);
    }
    forall x | last.items == []
      ensures x in last.accepted <==> Reachable(FreshGraph(clients, s0, id), src, x)
    {
      QuiescentCoverage(clients, s0, id, src, last, x);
    }
  }

  /** On a connected mesh where nobody has seen the number yet, everybody
      accepts. */
  lemma FloodReachesAll(clients: Graph, nodes: set<Name>, id: nat, src: Name, states: seq<State>, labels: seq<Label>,
                        x: Name)
    requires Mesh(clients, nodes, src) && Run(clients, id, src, states, labels)
    requires forall y :: y in nodes && y != src ==> Fresh(states[0], id, y)
    requires states[|labels|].items == [] && Reachable(clients, src, x)
    ensures x in states[|labels|].accepted
  {
    var last := states[|labels|];
    RunInv(clients, id, src, states, labels);
    var done := set y | y in last.accepted;
    forall a, b | a in done && Edge(clients, a, b)
      ensures b in done
    {
      assert Covered(states[0], id, last, a, b);
    }
    var n: nat :| Walk(clients, src, x, n);
    ClosedKeepsWalks(clients, done, src, x, n);
  }

  // Runs with any older announcements

  /** Like `Step`, but older announcements may also trip the lollipop reset. */
  ghost predicate FreeStep(clients: Graph, id: nat, s: State, l: Label, s': State) {
    match l
    case Deliver(i) => DeliverStep(id, s, s', i)
    case Spread(i) => SpreadStep(clients, s, s', i)
    case Older(x, older) => OlderStep(id, s, s', x, older)
  }

  ghost predicate FreeRun(clients: Graph, id: nat, src: Name, states: seq<State>, labels: seq<Label>) {
    && |states| == |labels| + 1 && Init(src, id, states[0])
    && forall i :: 0 <= i < |labels| ==> FreeStep(clients, id, states[i], labels[i], states[i + 1])
  }

  /** In step `i` a node that had accepted forgets that it did. */
  ghost predicate ForgotAt(id: nat, states: seq<State>, labels: seq<Label>, i: int, x: Name) {
    0 <= i < |labels| && i < |states| && labels[i].Older? && labels[i].node == x &&
    x in states[i].accepted && Forgets(id, states[i], x, labels[i].id)
  }

  /** In step `j` a copy reaches `x`. */
  ghost predicate ReachedAt(states: seq<State>, labels: seq<Label>, j: int, x: Name) {
    0 <= j < |labels| && j < |states| && labels[j].Deliver? && labels[j].i < |states[j].items| &&
    states[j].items[labels[j].i].at == x
  }

  /** A node forgot and was reached again, all before step `k`. */
  ghost predicate ReachedAgain(id: nat, states: seq<State>, labels: seq<Label>, k: int) {
    exists i, j, x :: ForgotAt(id, states, labels, i, x) && ReachedAt(states, labels, j, x) && i < j < k
  }

  ghost predicate Remembers(id: nat, states: seq<State>, labels: seq<Label>, k: nat, x: Name)
    requires k < |states|
  {
    SeqOf(states[k].stored, x) == id || exists i :: ForgotAt(id, states, labels, i, x) && i < k
  }

  /** Who has accepted holds the number, unless it has forgotten; so nobody accepts
      twice unless it has forgotten and is reached again. */
  lemma {:induction false} TwiceMeansForgot(clients: Graph, id: nat, src: Name, states: seq<State>, labels: seq<Label>, k: nat)
    requires FreeRun(clients, id, src, states, labels) && k <= |labels|
    ensures forall x :: x in states[k].accepted ==> Remembers(id, states, labels, k, x)
    ensures !Distinct(states[k].accepted) ==> ReachedAgain(id, states, labels, k)
  {
    if k > 0 {
      TwiceMeansForgot(clients, id, src, states, labels, k - 1);
      var s, s' := states[k - 1], states[k];
      assert FreeStep(clients, id, s, labels[k - 1], s');
      forall x | x in s'.accepted
        ensures Remembers(id, states, labels, k, x)
      {
        RemembersNext(clients, id, states, labels, k, x);
      }
      if !Distinct(s'.accepted) && Distinct(s.accepted) {
        var x := AcceptedAgain(clients, id, s, labels[k - 1], s');
        assert Remembers(id, states, labels, k - 1, x) && ReachedAt(states, labels, k - 1, x);
      }
    }
  }

  lemma RemembersNext(clients: Graph, id: nat, states: seq<State>, labels: seq<Label>, k: nat, x: Name)
    requires 0 < k < |states| && k <= |labels| && FreeStep(clients, id, states[k - 1], labels[k - 1], states[k])
    requires x in states[k - 1].accepted ==> Remembers(id, states, labels, k - 1, x)
    requires x in states[k].accepted
    ensures Remembers(id, states, labels, k, x)
  {
    var s, s' := states[k - 1], states[k];
    if x in s.accepted && SeqOf(s.stored, x) == id && SeqOf(s'.stored, x) != id {
      assert ForgotAt(id, states, labels, k - 1, x);
    }
  }

  lemma AcceptedAgain(clients: Graph, id: nat, s: State, l: Label, s': State) returns (x: Name)
    requires FreeStep(clients, id, s, l, s') && Distinct(s.accepted) && !Distinct(s'.accepted)
    ensures l.Deliver? && l.i < |s.items| && s.items[l.i].at == x && x in s.accepted && SeqOf(s.stored, x) != id
  {
    x := s.items[l.i].at;
  }

  /** A node that has forgotten stays below the number until it is reached, and
      then accepts again. */
  lemma {:induction false} ForgotStaysBelow(clients: Graph, id: nat, src: Name, states: seq<State>, labels: seq<Label>,
                                            i: nat, k: nat, x: Name)
    requires FreeRun(clients, id, src, states, labels) && ForgotAt(id, states, labels, i, x) && i < k <= |labels|
    ensures x in states[k].accepted && 1 < id
    ensures !Distinct(states[k].accepted) || SeqOf(states[k].stored, x) < id
    ensures (exists j :: i < j < k && ReachedAt(states, labels, j, x)) ==> !Distinct(states[k].accepted)
  {
    var s, l, s' := states[k - 1], labels[k - 1], states[k];
    assert FreeStep(clients, id, s, l, s');
    if k > i + 1 {
      ForgotStaysBelow(clients, id, src, states, labels, i, k - 1, x);
      AcceptedGrows(clients, id, s, l, s');
      if !Distinct(s.accepted) {
        StaysTwice(s.accepted, s'.accepted);
      } else {
        BelowUntilReached(clients, id, s, l, s', x);
      }
    }
  }

  lemma AcceptedGrows(clients: Graph, id: nat, s: State, l: Label, s': State)
    requires FreeStep(clients, id, s, l, s')
    ensures s.accepted <= s'.accepted
  {
  }

  lemma StaysTwice(a: seq<Name>, b: seq<Name>)
    requires a <= b && !Distinct(a)
    ensures !Distinct(b)
  {
    var i, j :| 0 <= i < j < |a| && a[i] == a[j];
    assert b[i] == b[j];
  }

  lemma BelowUntilReached(clients: Graph, id: nat, s: State, l: Label, s': State, x: Name)
    requires FreeStep(clients, id, s, l, s') && x in s.accepted && SeqOf(s.stored, x) < id && 1 < id
    ensures if l.Deliver? && s.items[l.i].at == x then !Distinct(s'.accepted) else SeqOf(s'.stored, x) < id
  {
    if l.Deliver? && s.items[l.i].at == x {
      var n := |s.accepted|;
      assert s'.accepted == s.accepted + [x];
      var a :| 0 <= a < n && s.accepted[a] == x;
      assert s'.accepted[a] == s'.accepted[n];
    }
  }

  /** Whatever older announcements arrive when: somebody accepts the announcement
      twice exactly when a node that had accepted it is made to forget and a copy
      reaches that node later. */
  lemma AcceptsTwiceIff(clients: Graph, id: nat, src: Name, states: seq<State>, labels: seq<Label>)
    requires FreeRun(clients, id, src, states, labels)
    ensures !Distinct(states[|labels|].accepted) <==> ReachedAgain(id, states, labels, |labels|)
  {
    TwiceMeansForgot(clients, id, src, states, labels, |labels|);
    if ReachedAgain(id, states, labels, |labels|) {
      var i, j, x :| ForgotAt(id, states, labels, i, x) && ReachedAt(states, labels, j, x) && i < j < |labels|;
      ForgotStaysBelow(clients, id, src, states, labels, i, |labels|, x);
    }
  }

  // A run in which node b forgets: three nodes, all linked.

  ghost const TRIANGLE: Graph := map["a" := {"b", "c"}, "b" := {"a", "c"}, "c" := {"a", "b"}]

  ghost function Forgetful(k: nat): State {
    var at0 := map["a" := 17, "b" := 16, "c" := 16];
    var at3 := map["a" := 17, "b" := 17, "c" := 17];
    var atB := Spreading("b", ["a", "b"]);
    match k
    case 0 => State(at0, [Spreading("a", ["a"])], ["a"])
    case 1 => State(at0, [Copy("b", ["a"]), Copy("c", ["a"])], ["a"])
    case 2 => State(at0["b" := 17], [Copy("c", ["a"]), atB], ["a", "b"])
    case 3 => State(at3, [atB, Spreading("c", ["a", "c"])], ["a", "b", "c"])
    case 4 => State(at3, [atB, Copy("b", ["a", "c"])], ["a", "b", "c"])
    case 5 => State(at3["b" := 1], [atB, Copy("b", ["a", "c"])], ["a", "b", "c"])
    case _ => State(at3, [atB, Spreading("b", ["a", "c", "b"])], ["a", "b", "c", "b"])
  }

  lemma AcceptedCopy(id: nat, s: State, s': State, i: nat)
    requires i < |s.items| && s.items[i].Copy? && Accepts(id, SeqOf(s.stored, s.items[i].at))
    requires var c := s.items[i];
      && s'.stored == s.stored[c.at := id] && s'.accepted == s.accepted + [c.at]
      && s'.items == s.items[..i] + s.items[i + 1..] + [Spreading(c.at, c.route + [c.at])]
    ensures DeliverStep(id, s, s', i)
  {
  }

  lemma ForgetfulAccepts()
    ensures DeliverStep(17, Forgetful(1), Forgetful(2), 0)
    ensures DeliverStep(17, Forgetful(2), Forgetful(3), 0)
  {
    assert ["a"] + ["b"] == ["a", "b"] && ["a"] + ["c"] == ["a", "c"];
    AcceptedCopy(17, Forgetful(1), Forgetful(2), 0);
    AcceptedCopy(17, Forgetful(2), Forgetful(3), 0);
  }

  lemma ForgetfulSpreads()
    ensures SpreadStep(TRIANGLE, Forgetful(0), Forgetful(1), 0)
  {
    var s0, s1 := Forgetful(0), Forgetful(1);
    assert s0.items[..0] + s0.items[1..] == [] && s1.items[0..] == s1.items;
  }

  lemma ForgetfulSpreadsAgain()
    ensures SpreadStep(TRIANGLE, Forgetful(3), Forgetful(4), 1)
  {
    var s3, s4 := Forgetful(3), Forgetful(4);
    assert s3.items[..1] + s3.items[2..] == [s3.items[0]] && s4.items[1..] == [Copy("b", ["a", "c"])];
  }

  lemma ForgetfulAcceptsAgain()
    ensures OlderStep(17, Forgetful(4), Forgetful(5), "b", 1)
    ensures DeliverStep(17, Forgetful(5), Forgetful(6), 1)
  {
    assert ["a", "c"] + ["b"] == ["a", "c", "b"];
    assert Forgetful(5).stored["b" := 17] == Forgetful(6).stored;
    AcceptedCopy(17, Forgetful(5), Forgetful(6), 1);
  }

  /** A late copy of number 1 makes a node accept number 17 twice. */
  lemma AcceptsTwice()
    ensures Init("a", 17, Forgetful(0))
    ensures Step(TRIANGLE, 17, Forgetful(0), Spread(0), Forgetful(1))
    ensures Step(TRIANGLE, 17, Forgetful(1), Deliver(0), Forgetful(2))
    ensures Step(TRIANGLE, 17, Forgetful(2), Deliver(0), Forgetful(3))
    ensures Step(TRIANGLE, 17, Forgetful(3), Spread(1), Forgetful(4))
    ensures OlderStep(17, Forgetful(4), Forgetful(5), "b", 1)
    ensures Step(TRIANGLE, 17, Forgetful(5), Deliver(1), Forgetful(6))
    ensures Forgetful(6).accepted == ["a", "b", "c", "b"]
  {
    ForgetfulSpreads();
    ForgetfulSpreadsAgain();
    ForgetfulAccepts();
    ForgetfulAcceptsAgain();
  }

  lemma FloodProgresses(clients: Graph, id: nat, s: State)
    requires s.items != []
    ensures exists l: Label, s': State :: !l.Older? && Step(clients, id, s, l, s')
  {
    var it, rest := s.items[0], s.items[..0] + s.items[1..];
    hide CopiesTo, Edge;
    if it.Copy? {
      var s' := if Accepts(id, SeqOf(s.stored, it.at)) then
                  State(s.stored[it.at := Stored(id, SeqOf(s.stored, it.at))],
                        rest + [Spreading(it.at, it.route + [it.at])], s.accepted + [it.at])
                else State(s.stored, rest, s.accepted);
      assert Step(clients, id, s, Deliver(0), s');
    } else {
      var out := CopiesExist(clients, it);
      var s' := State(s.stored, rest + out, s.accepted);
      assert s'.items[..|rest|] == rest && s'.items[|rest|..] == out;
      assert Step(clients, id, s, Spread(0), s');
    }
  }

  lemma CopiesExist(clients: Graph, it: Item) returns (out: seq<Item>)
    ensures CopiesTo(clients, it, out)
  {
    var to := if it.at in clients then clients[it.at] else {};
    out := SomeCopies(to - (set k | k in it.route), it.route);
  }

  ghost function SomeCopies(to: set<Name>, route: seq<Name>): (out: seq<Item>)
    ensures forall j :: 0 <= j < |out| ==> out[j].Copy? && out[j].route == route && out[j].at in to
    ensures forall k :: k in to ==> Copy(k, route) in out
    ensures forall j, k :: 0 <= j < k < |out| ==> out[j].at != out[k].at
  {
    if to == {} then [] else
      var k :| k in to;
      [Copy(k, route)] + SomeCopies(to - {k}, route)
  }
}
