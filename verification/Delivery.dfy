/** Sending a message to a set of nodes: each node splits the recipients by next
    hop and forwards one copy per hop. In-flight copies are processed one at a
    time, in any order. */
module Delivery {
  import opened Graphs
  import opened Topology

  type Table = map<Name, Name>

  /** A copy on its way to the client `at`; `route` lists the nodes behind it. */
  datatype Copy = Copy(at: Name, recipients: seq<Name>, route: seq<Name>)

  datatype Receipt = Receipt(node: Name, route: seq<Name>)

  datatype State = State(inflight: seq<Copy>, log: seq<Receipt>)

  // Splitting the recipients (src/meshage/message.go:124-147)

  predicate Routed(me: Name, routes: Table, v: Name) {
    v != me && v in routes
  }

  function SliceFor(me: Name, routes: Table, rs: seq<Name>, hop: Name): seq<Name> {
    if rs == [] then []
    else
      var v := rs[|rs| - 1];
      var init := SliceFor(me, routes, rs[..|rs| - 1], hop);
      if Routed(me, routes, v) && routes[v] == hop then init + [v] else init
  }

  function Hops(me: Name, routes: Table, rs: seq<Name>): set<Name> {
    set v | v in rs && Routed(me, routes, v) :: routes[v]
  }

  function Slices(me: Name, routes: Table, rs: seq<Name>): map<Name, seq<Name>> {
    map hop | hop in Hops(me, routes, rs) :: SliceFor(me, routes, rs, hop)
  }

  lemma {:induction false} SliceMember(me: Name, routes: Table, rs: seq<Name>, hop: Name, v: Name)
    ensures v in SliceFor(me, routes, rs, hop) <==> v in rs && Routed(me, routes, v) && routes[v] == hop
  {
    if rs != [] {
      var init, last := rs[..|rs| - 1], rs[|rs| - 1];
      SliceMember(me, routes, init, hop, v);
      assert rs == init + [last];
    }
  }

  lemma SlicesExtend(me: Name, routes: Table, rs: seq<Name>, v: Name)
    ensures Slices(me, routes, rs + [v]) ==
      if Routed(me, routes, v)
      then Slices(me, routes, rs)[routes[v] := SliceFor(me, routes, rs, routes[v]) + [v]]
      else Slices(me, routes, rs)
  {
    var ext := rs + [v];
    assert ext[..|ext| - 1] == rs;
    assert Hops(me, routes, ext) == Hops(me, routes, rs) + if Routed(me, routes, v) then {routes[v]} else {};
  }

  lemma UnusedHopIsEmpty(me: Name, routes: Table, rs: seq<Name>, hop: Name)
    ensures hop !in Hops(me, routes, rs) ==> SliceFor(me, routes, rs, hop) == []
  {
    var slice := SliceFor(me, routes, rs, hop);
    if slice != [] { SliceMember(me, routes, rs, hop, slice[0]); }
  }

  /** Sending to oneself alone is an error; otherwise oneself and unknown hosts
      are skipped. */
  method GetRoutes(me: Name, routes: Table, recipients: seq<Name>) returns (ok: bool, slices: map<Name, seq<Name>>)
    ensures ok <==> recipients != [me]
    ensures ok ==> slices == Slices(me, routes, recipients)
  {
    slices := map[];
    assert recipients[..0] == [];
    for i := 0 to |recipients|
      invariant slices == Slices(me, routes, recipients[..i])
      invariant i > 0 ==> recipients != [me]
    {
      var v := recipients[i];
      SlicesExtend(me, routes, recipients[..i], v);
      assert recipients[..i] + [v] == recipients[..i + 1];
      if v == me {
        if |recipients| == 1 {
          return false, slices;
        }
        continue;
      }
      if v !in routes {
        continue;
      }
      UnusedHopIsEmpty(me, routes, recipients[..i], routes[v]);
      slices := slices[routes[v] := (if routes[v] in slices then slices[routes[v]] else []) + [v]];
    }
    assert recipients[..|recipients|] == recipients;
    ok := true;
  }

  // The network as a step system

  function Others(me: Name, rs: seq<Name>): (r: seq<Name>)
    ensures forall v :: v in r <==> v in rs && v != me
  {
    if rs == [] then []
    else if rs[0] == me then Others(me, rs[1..])
    else [rs[0]] + Others(me, rs[1..])
  }

  /** The copies of one Send, for some order of its next hops. */
  function Fan(slices: map<Name, seq<Name>>, order: seq<Name>, route: seq<Name>): seq<Copy>
    requires forall h :: h in order ==> h in slices
  {
    if order == [] then []
    else [Copy(order[0], slices[order[0]], route)] + Fan(slices, order[1..], route)
  }

  ghost predicate Enumerates(order: seq<Name>, keys: set<Name>) {
    && (forall h :: h in order <==> h in keys)
    && (forall i, j :: 0 <= i < j < |order| ==> order[i] != order[j])
  }

  function TableOf(tables: map<Name, Table>, x: Name): Table {
    if x in tables then tables[x] else map[]
  }

  /** The copies node `me` sends on for the recipients `rs`. */
  ghost predicate Forwards(tables: map<Name, Table>, me: Name, rs: seq<Name>, route: seq<Name>, out: seq<Copy>) {
    var slices := Slices(me, TableOf(tables, me), rs);
    exists order :: Enumerates(order, slices.Keys) && out == Fan(slices, order, route)
  }

  /** Set: no receipt, one copy per next hop (src/meshage/message.go:151-161). */
  ghost predicate Init(tables: map<Name, Table>, src: Name, recipients: seq<Name>, s: State) {
    s.log == [] &&
    if recipients == [src] then s.inflight == []
    else Forwards(tables, src, recipients, [src], s.inflight)
  }

  /** The copy at index `i` reaches its client (src/meshage/message.go:207-243). */
  ghost predicate StepAt(tables: map<Name, Table>, s: State, s': State, i: nat) {
    i < |s.inflight| &&
    var c := s.inflight[i];
    var route := c.route + [c.at];
    && s'.log == s.log + (if c.at in c.recipients then [Receipt(c.at, route)] else [])
    && |s.inflight| - 1 <= |s'.inflight|
    && s'.inflight[..|s.inflight| - 1] == s.inflight[..i] + s.inflight[i + 1..]
    && Forwards(tables, c.at, Others(c.at, c.recipients), route, s'.inflight[|s.inflight| - 1..])
  }

  ghost predicate Step(tables: map<Name, Table>, s: State, s': State) {
    exists i: nat :: StepAt(tables, s, s', i)
  }

  ghost predicate Run(tables: map<Name, Table>, src: Name, recipients: seq<Name>, run: seq<State>) {
    && run != [] && Init(tables, src, recipients, run[0])
    && forall i :: 0 <= i < |run| - 1 ==> Step(tables, run[i], run[i + 1])
  }

  // Counting

  /** How many in-flight copies still name `v`. */
  ghost function Pending(copies: seq<Copy>, v: Name): nat {
    if copies == [] then 0 else (if v in copies[0].recipients then 1 else 0) + Pending(copies[1..], v)
  }

  ghost function Received(log: seq<Receipt>, v: Name): nat {
    if log == [] then 0 else (if log[0].node == v then 1 else 0) + Received(log[1..], v)
  }

  /** Hops still to be made on behalf of `v`. */
  ghost function Work(g: Graph, copies: seq<Copy>, v: Name): nat {
    if copies == [] then 0 else WorkOf(g, copies[0], v) + Work(g, copies[1..], v)
  }

  ghost function WorkOf(g: Graph, c: Copy, v: Name): nat {
    if v in c.recipients && Reachable(g, c.at, v) then 1 + Dist(g, c.at, v) else 0
  }

  lemma {:induction false} PendingSplit(a: seq<Copy>, b: seq<Copy>, v: Name)
    ensures Pending(a + b, v) == Pending(a, v) + Pending(b, v)
  {
    if a == [] {
      assert a + b == b;
    } else {
      assert (a + b)[1..] == a[1..] + b;
      PendingSplit(a[1..], b, v);
    }
  }

  lemma {:induction false} ReceivedSplit(a: seq<Receipt>, b: seq<Receipt>, v: Name)
    ensures Received(a + b, v) == Received(a, v) + Received(b, v)
  {
    if a == [] {
      assert a + b == b;
    } else {
      assert (a + b)[1..] == a[1..] + b;
      ReceivedSplit(a[1..], b, v);
    }
  }

  lemma {:induction false} WorkSplit(g: Graph, a: seq<Copy>, b: seq<Copy>, v: Name)
    ensures Work(g, a + b, v) == Work(g, a, v) + Work(g, b, v)
  {
    if a == [] {
      assert a + b == b;
    } else {
      assert (a + b)[1..] == a[1..] + b;
      WorkSplit(g, a[1..], b, v);
    }
  }

  /** Replacing the copy at `i` by `out` changes the counts by the difference. */
  lemma Replace(g: Graph, s: seq<Copy>, i: nat, out: seq<Copy>, s': seq<Copy>, v: Name)
    requires i < |s| && s' == s[..i] + s[i + 1..] + out
    ensures Pending(s', v) + Pending([s[i]], v) == Pending(s, v) + Pending(out, v)
    ensures Work(g, s', v) + Work(g, [s[i]], v) == Work(g, s, v) + Work(g, out, v)
  {
    var a, c, b := s[..i], [s[i]], s[i + 1..];
    assert s == a + (c + b);
    PendingSplit(a, c + b, v);
    PendingSplit(c, b, v);
    PendingSplit(a + b, out, v);
    PendingSplit(a, b, v);
    WorkSplit(g, a, c + b, v);
    WorkSplit(g, c, b, v);
    WorkSplit(g, a + b, out, v);
    WorkSplit(g, a, b, v);
  }

  /** Each routed recipient is named by exactly one copy, the one for its hop. */
  lemma {:induction false} FanCounts(g: Graph, me: Name, routes: Table, rs: seq<Name>, order: seq<Name>,
                                     route: seq<Name>, v: Name)
    requires forall h :: h in order ==> h in Slices(me, routes, rs)
    requires forall i, j :: 0 <= i < j < |order| ==> order[i] != order[j]
    ensures var out := Fan(Slices(me, routes, rs), order, route);
      if v in rs && Routed(me, routes, v) && routes[v] in order
      then Pending(out, v) == 1 &&
           Work(g, out, v) == if Reachable(g, routes[v], v) then 1 + Dist(g, routes[v], v) else 0
      else Pending(out, v) == 0 && Work(g, out, v) == 0
  {
    if order != [] {
      var slices := Slices(me, routes, rs);
      var rest := Fan(slices, order[1..], route);
      var head := Copy(order[0], slices[order[0]], route);
      assert Fan(slices, order, route) == [head] + rest;
      assert Fan(slices, order, route)[1..] == rest;
      assert order == [order[0]] + order[1..];
      SliceMember(me, routes, rs, order[0], v);
      FanCounts(g, me, routes, rs, order[1..], route, v);
    }
  }

  lemma {:induction false} FanMember(slices: map<Name, seq<Name>>, order: seq<Name>, route: seq<Name>, c: Copy)
    requires forall h :: h in order ==> h in slices
    requires c in Fan(slices, order, route)
    ensures c.at in order && c.recipients == slices[c.at] && c.route == route
  {
    if order != [] {
      if c in Fan(slices, order[1..], route) {
        FanMember(slices, order[1..], route, c);
      }
    }
  }

  /** Every node of the network holds a shortest-path table for it. */
  ghost predicate Converged(g: Graph, tables: map<Name, Table>) {
    && Symmetric(g)
    && (forall x {:trigger x in tables} :: x in g ==> x in tables)
    && (forall x {:trigger RoutesFor(g, x, tables[x])} :: x in g ==> RoutesFor(g, x, tables[x]))
  }

  lemma ForwardCounts(g: Graph, tables: map<Name, Table>, me: Name, rs: seq<Name>, route: seq<Name>,
                      out: seq<Copy>, v: Name)
    requires Converged(g, tables) && me in g && Forwards(tables, me, rs, route, out)
    ensures if v in rs && v != me && v in g
      then Reachable(g, me, v) && Pending(out, v) == 1 && Work(g, out, v) == Dist(g, me, v)
      else Pending(out, v) == 0 && Work(g, out, v) == 0
  {
    var routes := tables[me];
    assert RoutesFor(g, me, routes);
    var slices := Slices(me, routes, rs);
    var order :| Enumerates(order, slices.Keys) && out == Fan(slices, order, route);
    FanCounts(g, me, routes, rs, order, route, v);
    if v in rs && Routed(me, routes, v) {
      assert routes[v] in Hops(me, routes, rs);
      assert NextHop(g, me, v, routes[v]);
    }
  }

  /** A copy heads along a shortest walk for each recipient it names. */
  ghost predicate OnCourse(g: Graph, src: Name, c: Copy) {
    && c.at in g && c.recipients != []
    && Trail(g, src, c.route + [c.at])
    && forall v :: v in c.recipients ==>
         v in g && Reachable(g, src, v) && Reachable(g, c.at, v) &&
         |c.route| + Dist(g, c.at, v) == Dist(g, src, v)
  }

  /** `route` is a walk that starts at `src`. */
  ghost predicate Trail(g: Graph, src: Name, route: seq<Name>) {
    && route != [] && route[0] == src
    && forall i :: 0 < i < |route| ==> Edge(g, route[i - 1], route[i])
  }

  ghost predicate OnTime(g: Graph, src: Name, r: Receipt) {
    && Trail(g, src, r.route) && r.route[|r.route| - 1] == r.node
    && Reachable(g, src, r.node) && |r.route| - 1 == Dist(g, src, r.node)
  }

  ghost function Targets(g: Graph, src: Name, recipients: seq<Name>): set<Name> {
    set v | v in recipients && v != src && v in g
  }

  ghost predicate Inv(g: Graph, src: Name, targets: set<Name>, s: State) {
    && (forall v :: Pending(s.inflight, v) + Received(s.log, v) == if v in targets then 1 else 0)
    && (forall c :: c in s.inflight ==> OnCourse(g, src, c))
    && (forall r :: r in s.log ==> OnTime(g, src, r))
  }

  lemma TrailExtend(g: Graph, src: Name, route: seq<Name>, b: Name)
    requires Trail(g, src, route) && Edge(g, route[|route| - 1], b)
    ensures Trail(g, src, route + [b])
  {
  }

  /** What a forwarded copy carries. */
  lemma ForwardedCopy(g: Graph, tables: map<Name, Table>, me: Name, rs: seq<Name>, route: seq<Name>,
                      out: seq<Copy>, c: Copy)
    requires Converged(g, tables) && me in g && Forwards(tables, me, rs, route, out) && c in out
    ensures c.route == route && c.recipients != [] && Edge(g, me, c.at)
    ensures forall v :: v in c.recipients ==> v in rs && v in g && v != me && NextHop(g, me, v, c.at)
  {
    var routes := tables[me];
    assert RoutesFor(g, me, routes);
    var slices := Slices(me, routes, rs);
    var order :| Enumerates(order, slices.Keys) && out == Fan(slices, order, route);
    FanMember(slices, order, route, c);
    forall v | v in c.recipients
      ensures v in rs && v in g && v != me && NextHop(g, me, v, c.at)
    {
      SliceMember(me, routes, rs, c.at, v);
      assert NextHop(g, me, v, routes[v]);
    }
    var w :| w in rs && Routed(me, routes, w) && routes[w] == c.at;
    SliceMember(me, routes, rs, c.at, w);
  }

  lemma ForwardsOnCourse(g: Graph, tables: map<Name, Table>, src: Name, me: Name, rs: seq<Name>, route: seq<Name>,
                         out: seq<Copy>, c: Copy)
    requires Converged(g, tables) && me in g && Forwards(tables, me, rs, route, out) && c in out
    requires Trail(g, src, route) && route[|route| - 1] == me
    requires forall v :: v in rs && v in g && v != me ==>
               Reachable(g, src, v) && Reachable(g, me, v) && |route| - 1 + Dist(g, me, v) == Dist(g, src, v)
    ensures OnCourse(g, src, c)
  {
    ForwardedCopy(g, tables, me, rs, route, out, c);
    assert Edge(g, c.at, me);
    TrailExtend(g, src, route, c.at);
  }

  lemma TableReaches(g: Graph, tables: map<Name, Table>, x: Name, v: Name)
    requires Converged(g, tables) && x in g && v in g
    ensures Reachable(g, x, v)
  {
    assert RoutesFor(g, x, tables[x]);
    assert NextHop(g, x, v, tables[x][v]);
  }

  /** Nothing leaves a node that is not on the mesh. */
  lemma InitEmpty(tables: map<Name, Table>, me: Name, rs: seq<Name>, route: seq<Name>, out: seq<Copy>)
    requires Forwards(tables, me, rs, route, out) && TableOf(tables, me) == map[]
    ensures out == []
  {
    var slices := Slices(me, TableOf(tables, me), rs);
    var order :| Enumerates(order, slices.Keys) && out == Fan(slices, order, route);
    assert slices.Keys == {};
  }

  lemma InitInv(g: Graph, tables: map<Name, Table>, src: Name, recipients: seq<Name>, s: State)
    requires Converged(g, tables) && (src in g || (g == map[] && TableOf(tables, src) == map[]))
    requires Init(tables, src, recipients, s)
    ensures Inv(g, src, Targets(g, src, recipients), s)
  {
    if src !in g {
      if recipients != [src] { InitEmpty(tables, src, recipients, [src], s.inflight); }
    } else if recipients != [src] {
      forall v
        ensures Pending(s.inflight, v) == if v in Targets(g, src, recipients) then 1 else 0
      {
        ForwardCounts(g, tables, src, recipients, [src], s.inflight, v);
      }
      forall v | v in g
        ensures Reachable(g, src, v)
      {
        TableReaches(g, tables, src, v);
      }
      forall c | c in s.inflight
        ensures OnCourse(g, src, c)
      {
        ForwardsOnCourse(g, tables, src, src, recipients, [src], s.inflight, c);
      }
    }
  }

  /** What handling the copy at `i` changes, per recipient. */
  lemma StepCounts(g: Graph, tables: map<Name, Table>, src: Name, s: State, s': State, i: nat, v: Name)
    requires Converged(g, tables) && StepAt(tables, s, s', i) && OnCourse(g, src, s.inflight[i])
    ensures Pending(s'.inflight, v) + Received(s'.log, v) == Pending(s.inflight, v) + Received(s.log, v)
    ensures Work(g, s'.inflight, v) + (if v in s.inflight[i].recipients then 1 else 0) == Work(g, s.inflight, v)
  {
    var c := s.inflight[i];
    var route := c.route + [c.at];
    var n := |s.inflight| - 1;
    var out := s'.inflight[n..];
    var rest := Others(c.at, c.recipients);
    assert s'.inflight == s'.inflight[..n] + out;
    Replace(g, s.inflight, i, out, s'.inflight, v);
    ForwardCounts(g, tables, c.at, rest, route, out, v);
    ReceivedSplit(s.log, s'.log[|s.log|..], v);
    assert s'.log == s.log + s'.log[|s.log|..];
    assert [c][1..] == [];
    if v == c.at && v in c.recipients {
      assert Walk(g, v, v, 0);
      DistUnique(g, v, v, 0);
    }
  }

  lemma DistToSelf(g: Graph, v: Name)
    ensures Reachable(g, v, v) && Dist(g, v, v) == 0
  {
    assert Walk(g, v, v, 0);
    DistUnique(g, v, v, 0);
  }

  lemma StepReceipts(g: Graph, tables: map<Name, Table>, src: Name, s: State, s': State, i: nat, r: Receipt)
    requires StepAt(tables, s, s', i) && OnCourse(g, src, s.inflight[i])
    requires r in s'.log && r !in s.log
    ensures OnTime(g, src, r)
  {
    var c := s.inflight[i];
    assert r == Receipt(c.at, c.route + [c.at]);
    DistToSelf(g, c.at);
  }

  lemma StepCopies(g: Graph, tables: map<Name, Table>, src: Name, s: State, s': State, i: nat, c': Copy)
    requires Converged(g, tables) && StepAt(tables, s, s', i)
    requires forall c :: c in s.inflight ==> OnCourse(g, src, c)
    requires c' in s'.inflight
    ensures OnCourse(g, src, c')
  {
    hide Converged, Forwards;
    var c := s.inflight[i];
    var n := |s.inflight| - 1;
    assert OnCourse(g, src, c);
    assert s'.inflight == s'.inflight[..n] + s'.inflight[n..];
    if c' in s'.inflight[n..] {
      ForwardsOnCourse(g, tables, src, c.at, Others(c.at, c.recipients), c.route + [c.at], s'.inflight[n..], c');
    } else {
      assert c' in s.inflight[..i] + s.inflight[i + 1..];
    }
  }

  lemma StepInv(g: Graph, tables: map<Name, Table>, src: Name, targets: set<Name>, s: State, s': State, i: nat)
    requires Converged(g, tables) && Inv(g, src, targets, s) && StepAt(tables, s, s', i)
    ensures Inv(g, src, targets, s')
  {
    assert OnCourse(g, src, s.inflight[i]);
    forall v
      ensures Pending(s'.inflight, v) + Received(s'.log, v) == Pending(s.inflight, v) + Received(s.log, v)
    {
      StepCounts(g, tables, src, s, s', i, v);
    }
    forall c' | c' in s'.inflight
      ensures OnCourse(g, src, c')
    {
      StepCopies(g, tables, src, s, s', i, c');
    }
    forall r | r in s'.log
      ensures OnTime(g, src, r)
    {
      if r !in s.log { StepReceipts(g, tables, src, s, s', i, r); }
    }
  }

  // Termination

  ghost function TotalWork(g: Graph, copies: seq<Copy>, vs: seq<Name>): nat {
    if vs == [] then 0 else Work(g, copies, vs[0]) + TotalWork(g, copies, vs[1..])
  }

  lemma {:induction false} TotalWorkDrops(g: Graph, a: seq<Copy>, b: seq<Copy>, vs: seq<Name>)
    requires forall v :: v in vs ==> Work(g, b, v) <= Work(g, a, v)
    ensures TotalWork(g, b, vs) <= TotalWork(g, a, vs)
    ensures (exists v :: v in vs && Work(g, b, v) < Work(g, a, v)) ==> TotalWork(g, b, vs) < TotalWork(g, a, vs)
  {
    if vs != [] {
      assert vs == [vs[0]] + vs[1..];
      TotalWorkDrops(g, a, b, vs[1..]);
    }
  }

  lemma {:induction false} PendingNamed(copies: seq<Copy>, c: Copy, v: Name)
    requires c in copies && v in c.recipients
    ensures Pending(copies, v) > 0
  {
    if c != copies[0] { PendingNamed(copies[1..], c, v); }
  }

  /** Every step uses up work for at least one recipient. */
  lemma StepWorks(g: Graph, tables: map<Name, Table>, src: Name, recipients: seq<Name>, s: State, s': State, i: nat)
    requires Converged(g, tables) && Inv(g, src, Targets(g, src, recipients), s) && StepAt(tables, s, s', i)
    ensures TotalWork(g, s'.inflight, recipients) < TotalWork(g, s.inflight, recipients)
  {
    var c := s.inflight[i];
    assert OnCourse(g, src, c);
    forall v
      ensures Work(g, s'.inflight, v) + (if v in c.recipients then 1 else 0) == Work(g, s.inflight, v)
    {
      StepCounts(g, tables, src, s, s', i, v);
    }
    var w := c.recipients[0];
    PendingNamed(s.inflight, c, w);
    assert w in Targets(g, src, recipients);
    TotalWorkDrops(g, s.inflight, s'.inflight, recipients);
  }

  /** Hops a Set makes at most: the sum of its recipients' distances. */
  ghost function HopBudget(g: Graph, src: Name, vs: seq<Name>): nat {
    if vs == [] then 0
    else (if vs[0] != src && vs[0] in g && Reachable(g, src, vs[0]) then Dist(g, src, vs[0]) else 0) +
         HopBudget(g, src, vs[1..])
  }

  lemma {:induction false} InitWork(g: Graph, tables: map<Name, Table>, src: Name, recipients: seq<Name>, s: State,
                                    vs: seq<Name>)
    requires Converged(g, tables) && (src in g || (g == map[] && TableOf(tables, src) == map[]))
    requires Init(tables, src, recipients, s)
    ensures TotalWork(g, s.inflight, vs) <= HopBudget(g, src, vs)
  {
    if vs != [] {
      InitWork(g, tables, src, recipients, s, vs[1..]);
      if recipients != [src] {
        if src in g {
          ForwardCounts(g, tables, src, recipients, [src], s.inflight, vs[0]);
        } else {
          InitEmpty(tables, src, recipients, [src], s.inflight);
        }
      }
    }
  }

  lemma {:induction false} RunInv(g: Graph, tables: map<Name, Table>, src: Name, recipients: seq<Name>, run: seq<State>)
    requires Converged(g, tables) && (src in g || (g == map[] && TableOf(tables, src) == map[]))
    requires Run(tables, src, recipients, run)
    ensures Inv(g, src, Targets(g, src, recipients), run[|run| - 1])
    ensures |run| - 1 + TotalWork(g, run[|run| - 1].inflight, recipients) <= HopBudget(g, src, recipients)
    decreases |run|
  {
    if |run| == 1 {
      InitInv(g, tables, src, recipients, run[0]);
      InitWork(g, tables, src, recipients, run[0], recipients);
    } else {
      var n := |run| - 1;
      RunInv(g, tables, src, recipients, run[..n]);
      assert Step(tables, run[n - 1], run[n]);
      var i: nat :| StepAt(tables, run[n - 1], run[n], i);
      StepInv(g, tables, src, Targets(g, src, recipients), run[n - 1], run[n], i);
      StepWorks(g, tables, src, recipients, run[n - 1], run[n], i);
    }
  }

  // The delivery theorem

  /** Every node of `src`'s effective network has learned the same reported
      network and holds the routes it derives from it. */
  ghost predicate MeshConverged(net: Mesh, tables: map<Name, Table>, src: Name) {
    forall x {:trigger x in tables} :: x == src || x in Effective(net, src) ==>
      x in tables && RoutesFor(Effective(net, x), x, tables[x])
  }

  lemma MeshTables(net: Mesh, tables: map<Name, Table>, src: Name)
    requires MeshConverged(net, tables, src)
    ensures var g := Effective(net, src);
      Converged(g, tables) && (src in g || (g == map[] && TableOf(tables, src) == map[]))
  {
    var g := Effective(net, src);
    EffectiveSymmetric(net, src);
    forall x | x in g
      ensures x in tables && RoutesFor(g, x, tables[x])
    {
      EffectiveAgrees(net, src, x);
    }
    if k :| k in g { EffectiveHoldsSelf(net, src, k); }
    assert src in tables;
  }

  /** On a converged mesh every run of a Set is finite, every receipt it logs is
      by a reachable recipient after exactly its shortest hop count, nobody
      receives twice, and when nothing is in flight every reachable recipient
      other than the sender has received it. */
  lemma SetDelivers(net: Mesh, tables: map<Name, Table>, src: Name, recipients: seq<Name>, run: seq<State>)
    requires MeshConverged(net, tables, src)
    requires Run(tables, src, recipients, run)
    ensures var g, targets, last := Effective(net, src), Targets(Effective(net, src), src, recipients), run[|run| - 1];
      && |run| - 1 <= HopBudget(g, src, recipients)
      && (forall r :: r in last.log ==> OnTime(g, src, r))
      && (forall v :: Received(last.log, v) <= if v in targets then 1 else 0)
      && (last.inflight == [] ==> forall v :: Received(last.log, v) == if v in targets then 1 else 0)
  {
    MeshTables(net, tables, src);
    RunInv(Effective(net, src), tables, src, recipients, run);
  }

  /** A broadcast reaches everybody else in the sender's component, once, by a
      shortest path (src/meshage/message.go:163-176). */
  lemma BroadcastDelivers(net: Mesh, tables: map<Name, Table>, src: Name, recipients: seq<Name>, run: seq<State>)
    requires MeshConverged(net, tables, src)
    requires forall v :: v in recipients <==> v in Effective(net, src) && v != src
    requires Run(tables, src, recipients, run)
    ensures var g, last := Effective(net, src), run[|run| - 1];
      && |run| - 1 <= HopBudget(g, src, recipients)
      && (forall r :: r in last.log ==> OnTime(g, src, r))
      && (last.inflight == [] ==> forall v :: Received(last.log, v) == if v in g && v != src then 1 else 0)
  {
    hide Run, MeshConverged, Received, OnTime, HopBudget;
    SetDelivers(net, tables, src, recipients, run);
  }

  /** A Set is never stuck: while a copy is in flight some step can be taken. */
  lemma SetProgresses(tables: map<Name, Table>, s: State)
    requires s.inflight != []
    ensures exists s' :: Step(tables, s, s')
  {
    var c := s.inflight[0];
    var route := c.route + [c.at];
    var out := ForwardsExist(tables, c.at, Others(c.at, c.recipients), route);
    hide Forwards, Others;
    var log := s.log + (if c.at in c.recipients then [Receipt(c.at, route)] else []);
    var kept := s.inflight[..0] + s.inflight[1..];
    var s' := State(kept + out, log);
    assert s'.inflight[..|kept|] == kept && s'.inflight[|kept|..] == out;
    assert StepAt(tables, s, s', 0);
    assert Step(tables, s, s');
  }

  lemma ForwardsExist(tables: map<Name, Table>, me: Name, rs: seq<Name>, route: seq<Name>) returns (out: seq<Copy>)
    ensures Forwards(tables, me, rs, route, out)
  {
    var slices := Slices(me, TableOf(tables, me), rs);
    var order := SomeOrder(slices.Keys);
    out := Fan(slices, order, route);
  }

  ghost function SomeOrder(keys: set<Name>): (order: seq<Name>)
    ensures Enumerates(order, keys)
  {
    if keys == {} then [] else
      var k :| k in keys;
      [k] + SomeOrder(keys - {k})
  }
}
