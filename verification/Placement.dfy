/** Queued VM groups, colocation, and what placing VMs does to a host. */
module Placement {
  import opened HostHeap
  import opened Sequences

  /** A queued group of VMs with one configuration (src/minimega/vms.go:37-48). */
  datatype Group = Group(names: seq<string>, schedule: string, colocate: string, coschedule: int,
                         vcpus: nat, memory: nat, networks: nat) {

    /** To be placed wherever the VM it names is placed. */
    predicate Floating() {
      colocate != "" && schedule == ""
    }

    function Only(name: string): Group {
      this.(names := [name])
    }
  }

  function NamesOf(gs: seq<Group>): seq<string> {
    if gs == [] then [] else gs[0].names + NamesOf(gs[1..])
  }

  lemma NamesOfOne(g: Group)
    ensures NamesOf([g]) == g.names
  {
    assert [g][1..] == [];
  }

  lemma {:induction false} NamesOfConcat(a: seq<Group>, b: seq<Group>)
    ensures NamesOf(a + b) == NamesOf(a) + NamesOf(b)
  {
    if a == [] {
      assert a + b == b;
    } else {
      assert (a + b)[1..] == a[1..] + b;
      NamesOfConcat(a[1..], b);
    }
  }

  lemma {:induction false} NameInGroup(gs: seq<Group>, g: Group, x: string)
    requires g in gs && x in g.names
    ensures x in NamesOf(gs)
  {
    if g != gs[0] { NameInGroup(gs[1..], g, x); }
  }

  lemma {:induction false} GroupOfName(gs: seq<Group>, x: string)
    requires x in NamesOf(gs)
    ensures exists g :: g in gs && x in g.names
  {
    if x !in gs[0].names { GroupOfName(gs[1..], x); }
  }

  /** With distinct names a VM belongs to one group only. */
  lemma {:induction false} OneGroup(gs: seq<Group>, g: Group, g': Group, x: string)
    requires Distinct(NamesOf(gs)) && g in gs && g' in gs && x in g.names && x in g'.names
    ensures g == g'
  {
    var head, tail := gs[0].names, NamesOf(gs[1..]);
    DistinctParts(head, tail);
    if g in gs[1..] { NameInGroup(gs[1..], g, x); }
    if g' in gs[1..] { NameInGroup(gs[1..], g', x); }
    if x in tail { OneGroup(gs[1..], g, g', x); }
  }

  // Colocation

  /** `x` floats with the VM called `top`. */
  ghost predicate ChildOf(queue: seq<Group>, x: string, top: string) {
    exists g :: g in queue && g.Floating() && g.colocate == top && x in g.names
  }

  lemma OneParent(queue: seq<Group>, x: string, a: string, b: string)
    requires Distinct(NamesOf(queue)) && ChildOf(queue, x, a) && ChildOf(queue, x, b)
    ensures a == b
  {
    var g :| g in queue && g.Floating() && g.colocate == a && x in g.names;
    var h :| h in queue && h.Floating() && h.colocate == b && x in h.names;
    OneGroup(queue, g, h, x);
  }

  /** Floating groups by the VM they float with (src/minimega/scheduler.go:70-73). */
  function FloatersOf(queue: seq<Group>, top: string): seq<Group> {
    if queue == [] then []
    else
      var init, last := FloatersOf(queue[..|queue| - 1], top), queue[|queue| - 1];
      if last.Floating() && last.colocate == top then init + [last] else init
  }

  function Floaters(queue: seq<Group>): map<string, seq<Group>> {
    map k | k in (set g | g in queue && g.Floating() :: g.colocate) :: FloatersOf(queue, k)
  }

  lemma {:induction false} FloaterMember(queue: seq<Group>, top: string, g: Group)
    ensures g in FloatersOf(queue, top) <==> g in queue && g.Floating() && g.colocate == top
  {
    if queue != [] {
      var init, last := queue[..|queue| - 1], queue[|queue| - 1];
      FloaterMember(init, top, g);
      assert queue == init + [last];
    }
  }

  function At(m: map<string, seq<Group>>, k: string): seq<Group> {
    if k in m then m[k] else []
  }

  lemma FloaterNames(queue: seq<Group>, top: string, x: string)
    ensures x in NamesOf(At(Floaters(queue), top)) <==> ChildOf(queue, x, top)
  {
    var fs := At(Floaters(queue), top);
    forall g
      ensures g in fs <==> g in queue && g.Floating() && g.colocate == top
    {
      FloaterMember(queue, top, g);
    }
    if x in NamesOf(fs) { GroupOfName(fs, x); }
    if ChildOf(queue, x, top) {
      var g :| g in queue && g.Floating() && g.colocate == top && x in g.names;
      NameInGroup(fs, g, x);
    }
  }

  lemma {:induction false} FloaterNamesDistinct(queue: seq<Group>, top: string)
    requires Distinct(NamesOf(queue))
    ensures Distinct(NamesOf(FloatersOf(queue, top)))
  {
    if queue != [] {
      var init, last := queue[..|queue| - 1], queue[|queue| - 1];
      assert queue == init + [last];
      NamesOfConcat(init, [last]);
      NamesOfOne(last);
      DistinctParts(NamesOf(init), last.names);
      var fs := FloatersOf(init, top);
      FloaterNamesDistinct(init, top);
      NamesOfConcat(fs, [last]);
      forall x | x in NamesOf(fs)
        ensures x !in last.names
      {
        GroupOfName(fs, x);
        var g :| g in fs && x in g.names;
        FloaterMember(init, top, g);
        NameInGroup(init, g, x);
      }
      DistinctJoin(NamesOf(fs), last.names);
    }
  }

  lemma DistinctParts(a: seq<string>, b: seq<string>)
    requires Distinct(a + b)
    ensures Distinct(a) && Distinct(b) && forall x :: x in a ==> x !in b
  {
    var c := a + b;
    forall i, j | 0 <= i < j < |b|
      ensures b[i] != b[j]
    {
      assert c[|a| + i] == b[i] && c[|a| + j] == b[j];
    }
    forall i, j | 0 <= i < j < |a|
      ensures a[i] != a[j]
    {
      assert c[i] == a[i] && c[j] == a[j];
    }
    forall i, j | 0 <= i < |a| && 0 <= j < |b|
      ensures a[i] != b[j]
    {
      assert c[i] == a[i] && c[|a| + j] == b[j];
    }
  }

  lemma DistinctJoin(a: seq<string>, b: seq<string>)
    requires Distinct(a) && Distinct(b) && forall x :: x in a ==> x !in b
    ensures Distinct(a + b)
  {
    forall i, j | 0 <= i < j < |a + b|
      ensures (a + b)[i] != (a + b)[j]
    {
      if i < |a| && |a| <= j { assert a[i] in a && b[j - |a|] in b; }
    }
  }

  // What a host looks like after some VMs have been placed on it

  function Low(limit: int, coschedule: int): int {
    if coschedule == -1 then limit
    else if limit == -1 || coschedule + 1 < limit then coschedule + 1
    else limit
  }

  function LowAll(limit: int, ps: seq<Group>): int {
    if ps == [] then limit else Low(LowAll(limit, ps[..|ps| - 1]), ps[|ps| - 1].coschedule)
  }

  function Cpus(ps: seq<Group>): nat {
    if ps == [] then 0 else Cpus(ps[..|ps| - 1]) + ps[|ps| - 1].vcpus
  }

  function Mem(ps: seq<Group>): nat {
    if ps == [] then 0 else Mem(ps[..|ps| - 1]) + ps[|ps| - 1].memory
  }

  function Nets(ps: seq<Group>): nat {
    if ps == [] then 0 else Nets(ps[..|ps| - 1]) + ps[|ps| - 1].networks
  }

  /** The commit totals grow by exactly the demands of the placed VMs; the limit
      drops to the lowest that any of them asks for. */
  function Grown(h: Stats, ps: seq<Group>): Stats {
    h.(vms := h.vms + |ps|, limit := LowAll(h.limit, ps),
       cpuCommit := h.cpuCommit + Cpus(ps), memCommit := h.memCommit + Mem(ps), netCommit := h.netCommit + Nets(ps))
  }

  /** What one more VM adds to a host (src/minimega/scheduler.go:160-179, 315-320). */
  lemma GrownOneMore(h: Stats, ps: seq<Group>, p: Group)
    ensures Grown(h, []) == h
    ensures var a, b := Grown(h, ps), Grown(h, ps + [p]);
      && b.vms == a.vms + 1 && b.cpuCommit == a.cpuCommit + p.vcpus && b.memCommit == a.memCommit + p.memory
      && b.netCommit == a.netCommit + p.networks
      && b.name == h.name && b.cpus == h.cpus && b.memTotal == h.memTotal
      && b.limit == if p.coschedule == -1 then a.limit
                    else if a.limit == -1 || p.coschedule + 1 < a.limit then p.coschedule + 1
                    else a.limit
  {
    assert (ps + [p])[..|ps|] == ps && (ps + [p])[|ps|] == p;
  }

  lemma {:induction false} GrownConcat(h: Stats, a: seq<Group>, b: seq<Group>)
    ensures Grown(Grown(h, a), b) == Grown(h, a + b)
    decreases |b|
  {
    if b == [] {
      assert a + b == a;
    } else {
      var init := b[..|b| - 1];
      assert (a + b)[..|a + b| - 1] == a + init;
      GrownConcat(h, a, init);
    }
  }

  /** Placing a VM before or after others makes no difference. */
  lemma {:induction false} LowAllCommutes(limit: int, c: int, ps: seq<Group>)
    requires c >= -1 && limit >= -1 && forall p :: p in ps ==> p.coschedule >= -1
    ensures LowAll(Low(limit, c), ps) == Low(LowAll(limit, ps), c) >= -1
  {
    if ps != [] { LowAllCommutes(limit, c, ps[..|ps| - 1]); }
  }

  lemma GrownFirstLast(h: Stats, p: Group, ps: seq<Group>)
    requires h.limit >= -1 && p.coschedule >= -1 && forall q :: q in ps ==> q.coschedule >= -1
    ensures Grown(Grown(h, [p]), ps) == Grown(h, ps + [p])
  {
    assert [p][..0] == [];
    assert (ps + [p])[..|ps + [p]| - 1] == ps;
    assert LowAll(h.limit, []) == h.limit;
    assert LowAll(h.limit, [p]) == Low(LowAll(h.limit, [p][..0]), p.coschedule);
    LowAllCommutes(h.limit, p.coschedule, ps);
    assert Cpus([p]) == Cpus([]) + p.vcpus;
    assert Mem([p]) == Mem([]) + p.memory;
    assert Nets([p]) == Nets([]) + p.networks;
  }

  /** The limit is what the host had or the strictest placed VM allows. */
  lemma {:induction false} LowAllIsLowest(limit: int, ps: seq<Group>)
    requires limit >= -1 && forall p :: p in ps ==> p.coschedule >= -1
    ensures LowAll(limit, ps) >= -1
    ensures limit != -1 ==> -1 < LowAll(limit, ps) <= limit
    ensures forall p :: p in ps && p.coschedule != -1 ==> -1 < LowAll(limit, ps) <= p.coschedule + 1
    ensures LowAll(limit, ps) == limit ||
            exists p :: p in ps && p.coschedule != -1 && LowAll(limit, ps) == p.coschedule + 1
  {
    if ps != [] {
      var init, last := ps[..|ps| - 1], ps[|ps| - 1];
      assert ps == init + [last];
      LowAllIsLowest(limit, init);
    }
  }

  /** Placing VMs never lowers a host in any load order. */
  lemma GrownIsHeavier(ord: SortBy, h: Stats, ps: seq<Group>)
    requires h.Sane() && forall p :: p in ps ==> p.coschedule >= -1
    ensures Grown(h, ps).Sane() && AtMost(ord, h, Grown(h, ps))
    ensures h.IsFull() ==> Grown(h, ps).IsFull()
  {
    LowAllIsLowest(h.limit, ps);
    LoadGrows(ord, h, Grown(h, ps));
  }

  lemma LoadGrows(ord: SortBy, h: Stats, h': Stats)
    requires h.Sane() && h'.Sane() && h.cpus == h'.cpus && h.memTotal == h'.memTotal
    requires h.cpuCommit <= h'.cpuCommit && h.memCommit <= h'.memCommit && h.netCommit <= h'.netCommit
    ensures Load(ord, h) <= Load(ord, h')
  {
    DivideGrows(h.cpuCommit as real, h'.cpuCommit as real, h.cpus as real);
    DivideGrows(h.memCommit as real, h'.memCommit as real, h.memTotal as real);
  }

  lemma DivideGrows(a: real, b: real, d: real)
    requires a <= b && d > 0.0
    ensures a / d <= b / d
  {
  }

  // The VMs that follow one placement

  datatype Vm = Vm(name: string, group: Group)

  function Each(g: Group, names: seq<string>): (vs: seq<Vm>)
    ensures |vs| == |names| && forall i :: 0 <= i < |vs| ==> vs[i] == Vm(names[i], g)
  {
    if names == [] then [] else [Vm(names[0], g)] + Each(g, names[1..])
  }

  /** The VMs of some groups, in order. */
  function Vms(gs: seq<Group>): (vs: seq<Vm>)
    ensures |vs| == |NamesOf(gs)|
    ensures forall i :: 0 <= i < |vs| ==>
              vs[i].name == NamesOf(gs)[i] && vs[i].group in gs && vs[i].name in vs[i].group.names
  {
    if gs == [] then [] else Each(gs[0], gs[0].names) + Vms(gs[1..])
  }

  ghost predicate OneVm(queue: seq<Group>, p: Group) {
    |p.names| == 1 && exists g :: g in queue && p.names[0] in g.names && p == g.Only(p.names[0])
  }

  /** `ps` places each of the VMs `tree` once. */
  ghost predicate Places(queue: seq<Group>, tree: seq<string>, ps: seq<Group>) {
    && multiset(NamesOf(ps)) == multiset(tree) && |ps| == |tree|
    && forall p :: p in ps ==> OneVm(queue, p)
  }

  lemma PlacesNone(queue: seq<Group>)
    ensures Places(queue, [], [])
  {
  }

  lemma PlacesConcat(queue: seq<Group>, a: seq<string>, ps: seq<Group>, b: seq<string>, qs: seq<Group>)
    requires Places(queue, a, ps) && Places(queue, b, qs)
    ensures Places(queue, a + b, ps + qs)
  {
    NamesOfConcat(ps, qs);
  }

  lemma PlacesTop(queue: seq<Group>, top: string, q: Group, a: seq<string>, ps: seq<Group>)
    requires Places(queue, a, ps) && q in queue && top in q.names
    ensures Places(queue, [top] + a, ps + [q.Only(top)])
  {
    NamesOfConcat(ps, [q.Only(top)]);
    NamesOfOne(q.Only(top));
    assert OneVm(queue, q.Only(top));
  }

  /** Whoever floats with a listed VM is listed. */
  ghost predicate DownClosed(queue: seq<Group>, s: seq<string>) {
    forall x, y :: x in s && ChildOf(queue, y, x) ==> y in s
  }

  /** The VM that a listed floating VM goes with is listed. */
  ghost predicate UpClosed(queue: seq<Group>, s: seq<string>) {
    forall x, y :: y in s && ChildOf(queue, y, x) ==> x in s
  }

  /** A VM that has not been placed, but whose own companion has if it floats. */
  ghost predicate Ready(queue: seq<Group>, entered: seq<string>, top: string) {
    && Distinct(entered) && UpClosed(queue, entered) && top !in entered
    && forall x :: ChildOf(queue, top, x) ==> x in entered
  }

  lemma NotPlacedYet(queue: seq<Group>, entered: seq<string>, top: string)
    requires Ready(queue, entered, top)
    ensures top !in entered
  {
  }

  /** `s` starts at `top`, and everybody else floats with somebody earlier. */
  ghost predicate Chained(queue: seq<Group>, top: string, s: seq<string>) {
    && s != [] && s[0] == top
    && forall k {:trigger FollowsEarlier(queue, s, k)} :: 0 < k < |s| ==> FollowsEarlier(queue, s, k)
  }

  ghost predicate FollowsEarlier(queue: seq<Group>, s: seq<string>, k: nat)
    requires k < |s|
  {
    exists m :: 0 <= m < k && ChildOf(queue, s[k], s[m])
  }

  /** Everybody who, directly or not, floats with `top`. */
  ghost predicate Subtree(queue: seq<Group>, top: string, tree: seq<string>) {
    Chained(queue, top, tree) && DownClosed(queue, tree)
  }

  /** Part of a subtree: `top`, and the subtrees of those `done` who float with it. */
  ghost predicate Growing(queue: seq<Group>, entered: seq<string>, top: string, s: seq<string>, done: seq<string>) {
    && Ready(queue, entered, top)
    && Distinct(entered + s) && Chained(queue, top, s)
    && (forall x, y :: x in s && x != top && ChildOf(queue, y, x) ==> y in s)
    && (forall x :: x in s && ChildOf(queue, x, top) <==> x in done)
  }

  lemma GrowingStarts(queue: seq<Group>, entered: seq<string>, top: string)
    requires Ready(queue, entered, top)
    ensures Growing(queue, entered, top, [top], [])
  {
    DistinctJoin(entered, [top]);
    assert !ChildOf(queue, top, top);
  }

  lemma GrowingUpClosed(queue: seq<Group>, entered: seq<string>, top: string, s: seq<string>, done: seq<string>)
    requires Distinct(NamesOf(queue)) && Growing(queue, entered, top, s, done)
    ensures UpClosed(queue, entered + s)
  {
    forall x, y | y in entered + s && ChildOf(queue, y, x)
      ensures x in entered + s
    {
      if y in s && y != top {
        var k :| 0 <= k < |s| && s[k] == y;
        assert FollowsEarlier(queue, s, k);
        var m :| 0 <= m < k && ChildOf(queue, s[k], s[m]);
        OneParent(queue, y, x, s[m]);
      }
    }
  }

  /** The next VM that floats with `top` has not been placed before. */
  lemma KidIsReady(queue: seq<Group>, entered: seq<string>, top: string, s: seq<string>, done: seq<string>, kid: string)
    requires Distinct(NamesOf(queue)) && Growing(queue, entered, top, s, done)
    requires ChildOf(queue, kid, top) && kid !in done
    ensures Ready(queue, entered + s, kid)
  {
    GrowingUpClosed(queue, entered, top, s, done);
    assert s[0] in s;
    assert kid !in s;
    assert kid !in entered;
    forall x | ChildOf(queue, kid, x)
      ensures x in entered + s
    {
      OneParent(queue, kid, x, top);
    }
  }

  lemma ChainedConcat(queue: seq<Group>, top: string, s: seq<string>, kid: string, t: seq<string>)
    requires Chained(queue, top, s) && Chained(queue, kid, t) && ChildOf(queue, kid, top)
    ensures Chained(queue, top, s + t)
  {
    var c := s + t;
    forall k | 0 < k < |c|
      ensures FollowsEarlier(queue, c, k)
    {
      if k < |s| {
        assert FollowsEarlier(queue, s, k);
        var m :| 0 <= m < k && ChildOf(queue, s[k], s[m]);
        assert c[k] == s[k] && c[m] == s[m];
      } else if k == |s| {
        assert c[k] == kid && c[0] == top;
      } else {
        assert FollowsEarlier(queue, t, k - |s|);
        var m :| 0 <= m < k - |s| && ChildOf(queue, t[k - |s|], t[m]);
        assert c[k] == t[k - |s|] && c[|s| + m] == t[m];
      }
    }
  }

  /** Only the kid itself floats with `top` directly. */
  lemma DirectKids(queue: seq<Group>, top: string, kid: string, t: seq<string>, x: string)
    requires Distinct(NamesOf(queue)) && Chained(queue, kid, t) && top !in t
    requires x in t && ChildOf(queue, x, top)
    ensures x == kid
  {
    var k :| 0 <= k < |t| && t[k] == x;
    if k > 0 {
      assert FollowsEarlier(queue, t, k);
      var m :| 0 <= m < k && ChildOf(queue, t[k], t[m]);
      OneParent(queue, x, top, t[m]);
    }
  }

  lemma KidsDone(queue: seq<Group>, top: string, s: seq<string>, done: seq<string>, kid: string, t: seq<string>, x: string)
    requires Distinct(NamesOf(queue)) && Chained(queue, kid, t) && top !in t && ChildOf(queue, kid, top)
    requires x in s && ChildOf(queue, x, top) <==> x in done
    ensures x in s + t && ChildOf(queue, x, top) <==> x in done + [kid]
  {
    if x in t && ChildOf(queue, x, top) { DirectKids(queue, top, kid, t, x); }
    assert t[0] == kid && t[0] in t;
  }

  lemma GrowingKid(queue: seq<Group>, entered: seq<string>, top: string, s: seq<string>, done: seq<string>,
                   kid: string, t: seq<string>)
    requires Distinct(NamesOf(queue)) && Growing(queue, entered, top, s, done)
    requires ChildOf(queue, kid, top) && Subtree(queue, kid, t) && Distinct(entered + s + t)
    ensures Growing(queue, entered, top, s + t, done + [kid])
  {
    assert entered + s + t == entered + (s + t);
    ChainedConcat(queue, top, s, kid, t);
    assert top !in t by {
      assert s[0] in s;
      DistinctParts(entered + s, t);
    }
    forall x
      ensures x in s + t && ChildOf(queue, x, top) <==> x in done + [kid]
    {
      KidsDone(queue, top, s, done, kid, t, x);
    }
  }

  lemma GrowingEnds(queue: seq<Group>, entered: seq<string>, top: string, s: seq<string>, done: seq<string>)
    requires Distinct(NamesOf(queue)) && Growing(queue, entered, top, s, done)
    requires forall x :: ChildOf(queue, x, top) ==> x in done
    ensures Subtree(queue, top, s) && Distinct(entered + s) && UpClosed(queue, entered + s)
  {
    GrowingUpClosed(queue, entered, top, s, done);
  }
}
