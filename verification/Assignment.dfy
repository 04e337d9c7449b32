/** What a schedule is: every VM at home on one host, companions together, limits
    respected. */
module Assignment {
  import opened HostHeap
  import opened Placement
  import opened Sequences

  type Result = map<string, seq<Group>>

  // Anchored VMs

  ghost predicate Root(queue: seq<Group>, x: string) {
    exists g :: g in queue && !g.Floating() && x in g.names
  }

  /** Within `n` steps of "floats with", `x` leads to a VM that does not float. */
  ghost predicate Anchored(queue: seq<Group>, x: string, n: nat)
    decreases n
  {
    Root(queue, x) || (n > 0 && exists a :: ChildOf(queue, x, a) && Anchored(queue, a, n - 1))
  }

  ghost predicate IsAnchored(queue: seq<Group>, x: string) {
    exists n: nat :: Anchored(queue, x, n)
  }

  lemma RootHasNoParent(queue: seq<Group>, x: string, a: string)
    requires Distinct(NamesOf(queue)) && Root(queue, x)
    ensures !ChildOf(queue, x, a)
  {
    if ChildOf(queue, x, a) {
      var g :| g in queue && !g.Floating() && x in g.names;
      var h :| h in queue && h.Floating() && h.colocate == a && x in h.names;
      OneGroup(queue, g, h, x);
    }
  }

  lemma {:induction false} ChainIsAnchored(queue: seq<Group>, top: string, s: seq<string>, k: nat)
    requires Chained(queue, top, s) && Root(queue, top) && k < |s|
    ensures IsAnchored(queue, s[k])
    decreases k
  {
    if k == 0 {
      assert Anchored(queue, s[0], 0);
    } else {
      assert FollowsEarlier(queue, s, k);
      var m :| 0 <= m < k && ChildOf(queue, s[k], s[m]);
      ChainIsAnchored(queue, top, s, m);
      var n: nat :| Anchored(queue, s[m], n);
      assert Anchored(queue, s[k], n + 1);
    }
  }

  /** A list with all the roots that is closed downwards has every anchored VM. */
  lemma {:induction false} AnchoredAreListed(queue: seq<Group>, s: seq<string>, x: string, n: nat)
    requires DownClosed(queue, s) && (forall r :: Root(queue, r) ==> r in s)
    requires Anchored(queue, x, n)
    ensures x in s
    decreases n
  {
    if !Root(queue, x) {
      var a :| ChildOf(queue, x, a) && Anchored(queue, a, n - 1);
      AnchoredAreListed(queue, s, a, n - 1);
    }
  }

  // Homes

  /** Each VM with a home is listed there once, and nowhere else. */
  ghost predicate ListedAtHome(home: map<string, string>, res: Result) {
    forall k, x :: Listed(home, At(res, k), k, x)
  }

  ghost predicate Listed(home: map<string, string>, gs: seq<Group>, k: string, x: string) {
    multiset(NamesOf(gs))[x] == if x in home && home[x] == k then 1 else 0
  }

  ghost predicate Together(queue: seq<Group>, home: map<string, string>) {
    forall x, y :: y in home && ChildOf(queue, y, x) ==> x in home && home[x] == home[y]
  }

  /** Every listed VM is one of the queue's, on the host it names if it names one. */
  ghost predicate Faithful(queue: seq<Group>, res: Result) {
    forall k, p :: p in At(res, k) ==> OneVm(queue, p) && (p.schedule != "" ==> p.schedule == k)
  }

  ghost function Settle(home: map<string, string>, tree: seq<string>, host: string): map<string, string> {
    map x | x in home.Keys + (set y | y in tree) :: if x in tree then host else home[x]
  }

  /** Reading the result, the list of host `h` has grown by `ps`. */
  ghost predicate AppendedTo(res: Result, res': Result, h: string, ps: seq<Group>) {
    forall k :: At(res', k) == At(res, k) + if k == h then ps else []
  }

  lemma {:induction false} DistinctOnce(s: seq<string>, x: string)
    requires Distinct(s)
    ensures multiset(s)[x] == if x in s then 1 else 0
  {
    if s != [] {
      assert s == [s[0]] + s[1..];
      DistinctParts([s[0]], s[1..]);
      DistinctOnce(s[1..], x);
    }
  }

  lemma ListedOne(res: seq<Group>, ps: seq<Group>, tree: seq<string>, x: string)
    requires Distinct(tree) && multiset(NamesOf(ps)) == multiset(tree)
    ensures multiset(NamesOf(res + ps))[x] == multiset(NamesOf(res))[x] + if x in tree then 1 else 0
  {
    DistinctOnce(tree, x);
    NamesOfConcat(res, ps);
    assert multiset(NamesOf(res + ps)) == multiset(NamesOf(res)) + multiset(NamesOf(ps));
  }

  lemma ListedAfter(home: map<string, string>, res: Result, res': Result, h: string, tree: seq<string>, ps: seq<Group>)
    requires ListedAtHome(home, res) && AppendedTo(res, res', h, ps)
    requires Distinct(tree) && (forall y :: y in tree ==> y !in home) && multiset(NamesOf(ps)) == multiset(tree)
    ensures ListedAtHome(Settle(home, tree, h), res')
  {
    forall k, x
      ensures Listed(Settle(home, tree, h), At(res', k), k, x)
    {
      assert Listed(home, At(res, k), k, x);
      assert At(res', k) == At(res, k) + if k == h then ps else [];
      ListedAfterAt(home, At(res, k), At(res', k), h, tree, ps, k, x);
    }
  }

  lemma ListedAfterAt(home: map<string, string>, gs: seq<Group>, gs': seq<Group>, h: string, tree: seq<string>,
                      ps: seq<Group>, k: string, x: string)
    requires Listed(home, gs, k, x) && gs' == gs + if k == h then ps else []
    requires Distinct(tree) && (x in tree ==> x !in home) && multiset(NamesOf(ps)) == multiset(tree)
    ensures Listed(Settle(home, tree, h), gs', k, x)
  {
    ListedOne(gs, ps, tree, x);
    assert gs + [] == gs;
  }

  /** Who follows does not name a host of its own. */
  lemma FollowerIsFree(queue: seq<Group>, top: string, tree: seq<string>, ps: seq<Group>, p: Group)
    requires Distinct(NamesOf(queue)) && Chained(queue, top, tree) && Places(queue, tree, ps)
    requires p in ps && p.names != [top]
    ensures p.schedule == ""
  {
    assert OneVm(queue, p);
    var x := p.names[0];
    NameInGroup(ps, p, x);
    assert x in multiset(NamesOf(ps));
    assert x in multiset(tree);
    var k :| 0 <= k < |tree| && tree[k] == x;
    assert p.names == [x];
    assert k > 0;
    assert FollowsEarlier(queue, tree, k);
    var m :| 0 <= m < k && ChildOf(queue, tree[k], tree[m]);
    var g :| g in queue && g.Floating() && g.colocate == tree[m] && x in g.names;
    var g' :| g' in queue && x in g'.names && p == g'.Only(x);
    OneGroup(queue, g, g', x);
  }

  lemma TopNamesItsHost(queue: seq<Group>, top: string, q: Group, p: Group)
    requires Distinct(NamesOf(queue)) && q in queue && top in q.names && OneVm(queue, p) && p.names == [top]
    ensures p == q.Only(top)
  {
    var g :| g in queue && top in g.names && p == g.Only(top);
    OneGroup(queue, q, g, top);
  }

  // The state between two placements

  ghost predicate Settled(queue: seq<Group>, entered: seq<string>, home: map<string, string>, res: Result) {
    && Distinct(entered) && UpClosed(queue, entered) && DownClosed(queue, entered)
    && (forall x :: x in home <==> x in entered)
    && (forall x :: x in entered ==> IsAnchored(queue, x))
    && ListedAtHome(home, res) && Together(queue, home) && Faithful(queue, res)
  }

  lemma NothingSettled(queue: seq<Group>)
    ensures Settled(queue, [], map[], map[])
  {
    assert NamesOf([]) == [];
  }

  lemma FaithfulAfter(queue: seq<Group>, res: Result, res': Result, host: string, top: string, q: Group,
                      tree: seq<string>, ps: seq<Group>)
    requires Distinct(NamesOf(queue)) && Faithful(queue, res) && AppendedTo(res, res', host, ps)
    requires q in queue && top in q.names && (q.schedule != "" ==> q.schedule == host)
    requires Chained(queue, top, tree) && Places(queue, tree, ps)
    ensures Faithful(queue, res')
  {
    hide Distinct, NamesOf, Chained, OneVm;
    forall k, p | p in At(res', k)
      ensures OneVm(queue, p) && (p.schedule != "" ==> p.schedule == k)
    {
      if p !in At(res, k) {
        assert p in ps && OneVm(queue, p);
        if p.names == [top] {
          TopNamesItsHost(queue, top, q, p);
        } else {
          FollowerIsFree(queue, top, tree, ps, p);
        }
      }
    }
  }

  lemma TogetherAfter(queue: seq<Group>, home: map<string, string>, top: string, tree: seq<string>, host: string)
    requires Distinct(NamesOf(queue)) && Together(queue, home) && Root(queue, top) && Chained(queue, top, tree)
    requires forall y :: y in tree ==> y !in home
    ensures Together(queue, Settle(home, tree, host))
  {
    var home' := Settle(home, tree, host);
    forall x, y | y in home' && ChildOf(queue, y, x)
      ensures x in home' && home'[x] == home'[y]
    {
      if y in tree {
        var k :| 0 <= k < |tree| && tree[k] == y;
        if k == 0 {
          RootHasNoParent(queue, top, x);
        } else {
          assert FollowsEarlier(queue, tree, k);
          var m :| 0 <= m < k && ChildOf(queue, tree[k], tree[m]);
          OneParent(queue, y, x, tree[m]);
        }
      }
    }
  }

  /** Placing a root with its followers on one host. */
  lemma SettledAfter(queue: seq<Group>, entered: seq<string>, home: map<string, string>, res: Result, res': Result,
                     host: string, top: string, q: Group, tree: seq<string>, ps: seq<Group>)
    requires Distinct(NamesOf(queue)) && Settled(queue, entered, home, res)
    requires q in queue && top in q.names && !q.Floating() && (q.schedule != "" ==> q.schedule == host)
    requires Subtree(queue, top, tree) && Places(queue, tree, ps) && AppendedTo(res, res', host, ps)
    requires Distinct(entered + tree) && UpClosed(queue, entered + tree)
    ensures Settled(queue, entered + tree, Settle(home, tree, host), res')
  {
    DistinctParts(entered, tree);
    assert forall y :: y in tree ==> y !in home;
    ListedAfter(home, res, res', host, tree, ps);
    TogetherAfter(queue, home, top, tree, host);
    FaithfulAfter(queue, res, res', host, top, q, tree, ps);
    TreeAnchored(queue, top, tree);
    BothDownClosed(queue, entered, tree);
  }

  lemma TreeAnchored(queue: seq<Group>, top: string, tree: seq<string>)
    requires Chained(queue, top, tree) && Root(queue, top)
    ensures forall x :: x in tree ==> IsAnchored(queue, x)
  {
    forall x | x in tree
      ensures IsAnchored(queue, x)
    {
      var k :| 0 <= k < |tree| && tree[k] == x;
      ChainIsAnchored(queue, top, tree, k);
    }
  }

  lemma BothDownClosed(queue: seq<Group>, a: seq<string>, b: seq<string>)
    requires DownClosed(queue, a) && DownClosed(queue, b)
    ensures DownClosed(queue, a + b)
  {
  }

  // The finished schedule

  /** Every queued VM has one home, which is the host it names or the host of the
      VM it floats with. */
  ghost predicate Complete(queue: seq<Group>, home: map<string, string>, res: Result) {
    && (forall x :: x in home <==> x in NamesOf(queue))
    && ListedAtHome(home, res) && Together(queue, home) && Faithful(queue, res)
  }

  /** What a complete schedule says about one VM, in the fields of its group: it is
      on one host, once, with its configuration; on the host it names; or else with
      the VM it is colocated with. */
  lemma CompleteMeans(queue: seq<Group>, home: map<string, string>, res: Result, g: Group, x: string)
    requires Complete(queue, home, res) && Distinct(NamesOf(queue)) && g in queue && x in g.names
    ensures x in home && g.(names := [x]) in At(res, home[x])
    ensures forall k :: multiset(NamesOf(At(res, k)))[x] == if k == home[x] then 1 else 0
    ensures g.schedule != "" ==> home[x] == g.schedule
    ensures g.schedule == "" && g.colocate != "" ==> g.colocate in home && home[x] == home[g.colocate]
  {
    hide NamesOf, Distinct, OneVm;
    NameInGroup(queue, g, x);
    forall k
      ensures multiset(NamesOf(At(res, k)))[x] == if k == home[x] then 1 else 0
    {
      assert Listed(home, At(res, k), k, x);
    }
    ItsCopy(queue, At(res, home[x]), g, x);
    if g.schedule == "" && g.colocate != "" {
      assert ChildOf(queue, x, g.colocate);
    }
  }

  lemma ItsCopy(queue: seq<Group>, gs: seq<Group>, g: Group, x: string)
    requires Distinct(NamesOf(queue)) && g in queue && x in g.names && multiset(NamesOf(gs))[x] == 1
    requires forall p :: p in gs ==> OneVm(queue, p)
    ensures g.(names := [x]) in gs
  {
    hide NamesOf, Distinct;
    assert x in multiset(NamesOf(gs));
    GroupOfName(gs, x);
    var p :| p in gs && x in p.names;
    assert OneVm(queue, p) && p.names == [x];
    var h :| h in queue && x in h.names && p == h.Only(x);
    OneGroup(queue, g, h, x);
  }

  ghost predicate AllAnchored(queue: seq<Group>) {
    forall x :: x in NamesOf(queue) ==> IsAnchored(queue, x)
  }

  lemma EnteredAreNames(queue: seq<Group>, x: string, n: nat)
    requires Anchored(queue, x, n)
    ensures x in NamesOf(queue)
  {
    var g :| g in queue && x in g.names;
    NameInGroup(queue, g, x);
  }

  /** All roots placed and no floating VM left on file: the schedule is complete. */
  lemma CompleteWhenFilesEmpty(queue: seq<Group>, entered: seq<string>, home: map<string, string>, res: Result)
    requires Settled(queue, entered, home, res) && (forall r :: Root(queue, r) ==> r in entered)
    requires forall k :: k in Floaters(queue) ==> k in entered
    ensures Complete(queue, home, res) && AllAnchored(queue)
  {
    forall x | x in NamesOf(queue)
      ensures x in entered
    {
      GroupOfName(queue, x);
      var g :| g in queue && x in g.names;
      if g.Floating() {
        assert g.colocate in Floaters(queue);
        assert ChildOf(queue, x, g.colocate);
      } else {
        assert Root(queue, x);
      }
    }
    forall x | x in entered
      ensures x in NamesOf(queue)
    {
      var n: nat :| Anchored(queue, x, n);
      EnteredAreNames(queue, x, n);
    }
  }

  /** A VM left on file floats with something that leads nowhere. */
  lemma StuckWhenFilesRemain(queue: seq<Group>, entered: seq<string>, home: map<string, string>, res: Result, k: string)
    requires Settled(queue, entered, home, res) && (forall r :: Root(queue, r) ==> r in entered)
    requires k in Floaters(queue) && k !in entered
    requires forall g :: g in queue ==> g.names != []
    ensures !AllAnchored(queue)
  {
    var g :| g in queue && g.Floating() && g.colocate == k;
    var x := g.names[0];
    NameInGroup(queue, g, x);
    assert ChildOf(queue, x, k);
    assert x !in entered;
    forall n: nat
      ensures !Anchored(queue, x, n)
    {
      if Anchored(queue, x, n) { AnchoredAreListed(queue, entered, x, n); }
    }
  }

  // Totals and limits

  /** Every host has grown by what is listed for it. */
  ghost predicate Accounted(base: map<string, Stats>, vs: seq<Stats>, res: Result) {
    forall v :: v in vs ==> v.name in base && v == Grown(base[v.name], At(res, v.name))
  }

  /** No host that received a VM is over its limit. */
  ghost predicate WithinLimits(vs: seq<Stats>, res: Result) {
    forall v :: v in vs && At(res, v.name) != [] ==> v.limit == -1 || v.vms <= v.limit
  }

  /** The VMs of a host, old and new, are within the limit it had and within what
      each new one tolerates. */
  lemma LimitsHold(queue: seq<Group>, base: map<string, Stats>, vs: seq<Stats>, res: Result, v: Stats)
    requires Accounted(base, vs, res) && WithinLimits(vs, res) && Faithful(queue, res)
    requires forall g :: g in queue ==> g.coschedule >= -1
    requires v in vs && At(res, v.name) != [] && base[v.name].Sane()
    ensures var n := base[v.name].vms + |At(res, v.name)|;
      && v.vms == n
      && (base[v.name].limit != -1 ==> n <= base[v.name].limit)
      && (forall p :: p in At(res, v.name) && p.coschedule != -1 ==> n <= p.coschedule + 1)
  {
    var ps := At(res, v.name);
    forall p | p in ps
      ensures p.coschedule >= -1
    {
      assert OneVm(queue, p);
    }
    LowAllIsLowest(base[v.name].limit, ps);
  }

  /** Only host `r` has grown, by what is newly listed for it. */
  lemma AccountedAfter(base: map<string, Stats>, vs: seq<Stats>, ws: seq<Stats>, res: Result, res': Result, r: nat,
                       ps: seq<Group>)
    requires Accounted(base, vs, res) && WithinLimits(vs, res) && r < |vs| && NamesDistinct(vs)
    requires ws == vs[r := Grown(vs[r], ps)] && AppendedTo(res, res', vs[r].name, ps)
    requires ws[r].limit == -1 || ws[r].vms <= ws[r].limit
    ensures Accounted(base, ws, res') && WithinLimits(ws, res')
  {
    forall i | 0 <= i < |ws|
      ensures ws[i].name in base && ws[i] == Grown(base[ws[i].name], At(res', ws[i].name))
      ensures At(res', ws[i].name) != [] ==> ws[i].limit == -1 || ws[i].vms <= ws[i].limit
    {
      assert vs[i] in vs;
      if i == r {
        GrownConcat(base[vs[r].name], At(res, vs[r].name), ps);
        assert ws[r].name == vs[r].name;
        assert At(res', vs[r].name) == At(res, vs[r].name) + ps;
      } else {
        assert vs[i].name != vs[r].name;
        assert At(res', vs[i].name) == At(res, vs[i].name) + [] == At(res, vs[i].name);
      }
    }
  }

  /** Reordering the hosts changes nothing. */
  lemma AccountedReordered(base: map<string, Stats>, vs: seq<Stats>, ws: seq<Stats>, res: Result)
    requires Accounted(base, vs, res) && WithinLimits(vs, res) && forall v :: v in ws ==> v in vs
    ensures Accounted(base, ws, res) && WithinLimits(ws, res)
  {
  }

  // The order in which the queue is worked off

  function RootsOf(gs: seq<Group>): (r: seq<Group>)
    ensures forall g :: g in r <==> g in gs && !g.Floating()
  {
    if gs == [] then []
    else if gs[0].Floating() then RootsOf(gs[1..])
    else [gs[0]] + RootsOf(gs[1..])
  }

  lemma {:induction false} RootNamesDistinct(gs: seq<Group>)
    requires Distinct(NamesOf(gs))
    ensures Distinct(NamesOf(RootsOf(gs)))
  {
    if gs != [] {
      var head, tail, roots := gs[0].names, gs[1..], RootsOf(gs[1..]);
      DistinctParts(head, NamesOf(tail));
      RootNamesDistinct(tail);
      forall x | x in NamesOf(roots)
        ensures x in NamesOf(tail)
      {
        GroupOfName(roots, x);
        var g :| g in roots && x in g.names;
        NameInGroup(tail, g, x);
      }
      if !gs[0].Floating() {
        DistinctJoin(head, NamesOf(roots));
        assert RootsOf(gs)[1..] == roots;
      }
    }
  }

  lemma NamesWithout(b: seq<Group>, i: nat)
    requires i < |b|
    ensures multiset(NamesOf(b)) == multiset(b[i].names) + multiset(NamesOf(b[..i] + b[i + 1..]))
  {
    var l, r := b[..i], b[i + 1..];
    hide NamesOf;
    assert b == l + ([b[i]] + r);
    NamesOfConcat(l, [b[i]] + r);
    NamesOfConcat([b[i]], r);
    NamesOfConcat(l, r);
    NamesOfOne(b[i]);
    assert NamesOf(b) == NamesOf(l) + (b[i].names + NamesOf(r));
    MiddleOut(NamesOf(l), b[i].names, NamesOf(r));
  }

  lemma MiddleOut(l: seq<string>, m: seq<string>, r: seq<string>)
    ensures multiset(l + (m + r)) == multiset(m) + multiset(l + r)
  {
  }

  lemma MultisetWithout(b: seq<Group>, i: nat)
    requires i < |b|
    ensures multiset(b) == multiset{b[i]} + multiset(b[..i] + b[i + 1..])
  {
    assert b == b[..i] + ([b[i]] + b[i + 1..]);
  }

  lemma {:induction false} ReorderedNames(a: seq<Group>, b: seq<Group>)
    requires multiset(a) == multiset(b)
    ensures multiset(NamesOf(a)) == multiset(NamesOf(b))
  {
    if a == [] {
      assert |multiset(b)| == 0;
    } else {
      assert a[0] in multiset(b);
      var i :| 0 <= i < |b| && b[i] == a[0];
      MultisetWithout(b, i);
      MultisetWithout(a, 0);
      assert a[..0] + a[1..] == a[1..];
      assert multiset(a[1..]) == multiset(a) - multiset{a[0]};
      assert multiset(b[..i] + b[i + 1..]) == multiset(b) - multiset{a[0]};
      ReorderedNames(a[1..], b[..i] + b[i + 1..]);
      NamesWithout(b, i);
    }
  }

  lemma SameMultisetDistinct(a: seq<string>, b: seq<string>)
    requires Distinct(a) && multiset(a) == multiset(b)
    ensures Distinct(b)
  {
    forall i, j | 0 <= i < j < |b|
      ensures b[i] != b[j]
    {
      if b[i] == b[j] {
        TwiceCounts(b, i, j);
        DistinctOnce(a, b[i]);
      }
    }
  }

  /** Whatever order the sort leaves, the VMs to be placed directly are the roots,
      once each. */
  lemma WorkIsRoots(queue: seq<Group>, order: seq<Group>)
    requires Distinct(NamesOf(queue)) && multiset(order) == multiset(queue)
    ensures Distinct(NamesOf(RootsOf(order)))
    ensures forall g :: g in RootsOf(order) ==> g in queue && !g.Floating()
    ensures forall x :: Root(queue, x) ==> x in NamesOf(RootsOf(order))
  {
    ReorderedNames(order, queue);
    SameMultisetDistinct(NamesOf(queue), NamesOf(order));
    RootNamesDistinct(order);
    forall g
      ensures g in order <==> g in queue
    {
      assert g in multiset(order) <==> g in multiset(queue);
    }
    forall x | Root(queue, x)
      ensures x in NamesOf(RootsOf(order))
    {
      var g :| g in queue && !g.Floating() && x in g.names;
      NameInGroup(RootsOf(order), g, x);
    }
  }

  /** A root that comes later has not been placed on the way. */
  lemma LaterRootsWait(queue: seq<Group>, entered: seq<string>, top: string, tree: seq<string>, x: string)
    requires Distinct(NamesOf(queue)) && Chained(queue, top, tree) && Root(queue, x)
    requires x !in entered && x != top
    ensures x !in entered + tree
  {
    if x in tree {
      var k :| 0 <= k < |tree| && tree[k] == x;
      assert FollowsEarlier(queue, tree, k);
      var m :| 0 <= m < k && ChildOf(queue, tree[k], tree[m]);
      RootHasNoParent(queue, x, tree[m]);
    }
  }

  lemma RootIsReady(queue: seq<Group>, entered: seq<string>, home: map<string, string>, res: Result, x: string)
    requires Distinct(NamesOf(queue)) && Settled(queue, entered, home, res) && Root(queue, x) && x !in entered
    ensures Ready(queue, entered, x)
  {
    forall a
      ensures !ChildOf(queue, x, a)
    {
      RootHasNoParent(queue, x, a);
    }
  }
}
