/** The VM scheduler: recursive placement with colocation and coschedule limits,
    always on the least loaded host unless a VM names its host. */
module VmScheduler {
  import opened HostHeap
  import opened Placement
  import opened Sequences
  import opened Assignment

  ghost function NameSet(s: seq<string>): set<string> {
    set x | x in s
  }

  ghost predicate GoodQueue(queue: seq<Group>) {
    && Distinct(NamesOf(queue)) && (forall g :: g in queue ==> g.coschedule >= -1)
  }

  lemma OneVmCoschedule(queue: seq<Group>, names: seq<string>, ps: seq<Group>)
    requires GoodQueue(queue) && Places(queue, names, ps)
    ensures forall p :: p in ps ==> p.coschedule >= -1
  {
    forall p | p in ps
      ensures p.coschedule >= -1
    {
      assert OneVm(queue, p);
    }
  }

  /** Adding what is still to come shrinks the set of unplaced VMs. */
  lemma Shrinks(queue: seq<Group>, entered: seq<string>, s: seq<string>, top: string)
    requires top in s && top !in entered && top in NamesOf(queue)
    ensures NameSet(NamesOf(queue)) - NameSet(entered + s) < NameSet(NamesOf(queue)) - NameSet(entered)
  {
    assert top in NameSet(NamesOf(queue)) - NameSet(entered);
    assert top in entered + s;
  }

  lemma TopIsNew(queue: seq<Group>, entered: seq<string>, top: string, s: seq<string>, done: seq<string>)
    requires Growing(queue, entered, top, s, done)
    ensures s != [] && s[0] == top && top !in entered
  {
  }

  lemma RemovedNone(files: map<string, seq<Group>>)
    ensures files - NameSet([]) == files
  {
  }

  lemma RemovedTwice(files: map<string, seq<Group>>, a: seq<string>, b: seq<string>)
    ensures files - NameSet(a) - NameSet(b) == files - NameSet(a + b)
  {
  }

  lemma AppendedNone(res: Result, h: string)
    ensures AppendedTo(res, res, h, [])
  {
  }

  lemma AppendedOne(res: Result, h: string, p: Group)
    ensures AppendedTo(res, res[h := At(res, h) + [p]], h, [p])
  {
  }

  lemma AppendedTwice(r0: Result, r1: Result, r2: Result,
                      h: string, ps: seq<Group>, qs: seq<Group>)
    requires AppendedTo(r0, r1, h, ps) && AppendedTo(r1, r2, h, qs)
    ensures AppendedTo(r0, r2, h, ps + qs)
  {
    forall k
      ensures At(r2, k) == At(r0, k) + if k == h then ps + qs else []
    {
      assert At(r1, k) == At(r0, k) + if k == h then ps else [];
      assert At(r2, k) == At(r1, k) + if k == h then qs else [];
    }
  }

  lemma StillOnFile(colocated: map<string, seq<Group>>, queue: seq<Group>, before: map<string, seq<Group>>,
                    entered: seq<string>, top: string, rest: seq<string>)
    requires forall x :: x !in entered ==> At(before, x) == At(Floaters(queue), x)
    requires colocated == before - NameSet(rest)
    ensures forall x :: x !in entered + ([top] + rest) ==> At(colocated, x) == At(Floaters(queue), x)
  {
  }

  lemma GrownByNone(h: Stats)
    ensures Grown(h, []) == h
  {
  }

  lemma GrownByOne(h: Stats, p: Group)
    ensures Grown(h, [p]) == h.(vms := h.vms + 1, limit := Low(h.limit, p.coschedule),
      cpuCommit := h.cpuCommit + p.vcpus, memCommit := h.memCommit + p.memory, netCommit := h.netCommit + p.networks)
  {
    var s := [p];
    assert s[..|s| - 1] == [] && s[|s| - 1] == p;
    assert Cpus(s) == Cpus([]) + p.vcpus;
    assert Mem(s) == Mem([]) + p.memory;
    assert Nets(s) == Nets([]) + p.networks;
    assert LowAll(h.limit, s) == Low(LowAll(h.limit, []), p.coschedule);
  }

  lemma FloatersDistinct(queue: seq<Group>, top: string)
    requires Distinct(NamesOf(queue))
    ensures Distinct(NamesOf(At(Floaters(queue), top)))
  {
    FloaterNamesDistinct(queue, top);
  }

  lemma KidFacts(queue: seq<Group>, top: string, kid: Vm, i: nat)
    requires GoodQueue(queue) && i < |Vms(At(Floaters(queue), top))| && kid == Vms(At(Floaters(queue), top))[i]
    ensures kid.group in queue && kid.name in kid.group.names && ChildOf(queue, kid.name, top)
    ensures var names := NamesOf(At(Floaters(queue), top));
      i < |names| && names[i] == kid.name && kid.name !in names[..i]
  {
    var fs := At(Floaters(queue), top);
    FloaterMember(queue, top, kid.group);
    FloaterNames(queue, top, kid.name);
    FloatersDistinct(queue, top);
    assert NamesOf(fs)[i] == kid.name;
  }

  lemma SubtreeDone(queue: seq<Group>, entered: seq<string>, top: string, rest: seq<string>)
    requires GoodQueue(queue)
    requires Growing(queue, entered, top, [top] + rest, NamesOf(At(Floaters(queue), top)))
    ensures var s := [top] + rest;
      Subtree(queue, top, s) && Distinct(entered + s) && UpClosed(queue, entered + s) &&
      NameSet(s) == NameSet(rest) + {top}
  {
    var s := [top] + rest;
    forall x | ChildOf(queue, x, top)
      ensures x in NamesOf(At(Floaters(queue), top))
    {
      FloaterNames(queue, top, x);
    }
    GrowingEnds(queue, entered, top, s, NamesOf(At(Floaters(queue), top)));
  }

  const LOCALHOST: string := "localhost"

  datatype Outcome =
    | Done(res: Result)
    | NoHosts
    | UnknownHost(name: string)
    | TooMany(host: string)
    | NoSuchVms(names: set<string>)

  function Resolve(g: Group, hostname: string): Group {
    if g.schedule == LOCALHOST then g.(schedule := hostname) else g
  }

  /** The queue with `localhost` replaced by the name of this host. */
  function Resolved(queue: seq<Group>, hostname: string): (r: seq<Group>)
    ensures |r| == |queue| && forall i :: 0 <= i < |r| ==> r[i] == Resolve(queue[i], hostname)
  {
    if queue == [] then [] else [Resolve(queue[0], hostname)] + Resolved(queue[1..], hostname)
  }

  /** Only the host of a group changes, and only where it was `localhost`. */
  lemma {:induction false} ResolvedHosts(queue: seq<Group>, hostname: string, i: nat)
    requires i < |queue|
    ensures var g, r := queue[i], Resolved(queue, hostname)[i];
      && r.schedule == (if g.schedule == "localhost" then hostname else g.schedule)
      && r.names == g.names && r.colocate == g.colocate && r.coschedule == g.coschedule
      && r.vcpus == g.vcpus && r.memory == g.memory && r.networks == g.networks
  {
    if i > 0 { ResolvedHosts(queue[1..], hostname, i - 1); }
  }

  lemma {:induction false} ResolvedNames(queue: seq<Group>, hostname: string)
    ensures NamesOf(Resolved(queue, hostname)) == NamesOf(queue)
  {
    if queue != [] {
      ResolvedNames(queue[1..], hostname);
      assert Resolved(queue, hostname)[1..] == Resolved(queue[1..], hostname);
    }
  }

  lemma ResolvedIsGood(queue: seq<Group>, hostname: string)
    requires GoodQueue(queue)
    ensures GoodQueue(Resolved(queue, hostname))
  {
    ResolvedNames(queue, hostname);
    var r := Resolved(queue, hostname);
    forall g | g in r
      ensures g.coschedule >= -1
    {
      var i :| 0 <= i < |r| && r[i] == g;
      assert queue[i] in queue;
    }
  }

  lemma FloatersExtend(queue: seq<Group>, g: Group)
    ensures Floaters(queue + [g]) ==
      if g.Floating() then Floaters(queue)[g.colocate := FloatersOf(queue, g.colocate) + [g]] else Floaters(queue)
  {
    var ext := queue + [g];
    assert ext[..|ext| - 1] == queue;
    assert (set x | x in ext && x.Floating() :: x.colocate) ==
           (set x | x in queue && x.Floating() :: x.colocate) + if g.Floating() then {g.colocate} else {};
  }

  lemma FloatersAt(queue: seq<Group>, k: string)
    ensures At(Floaters(queue), k) == FloatersOf(queue, k)
  {
    var fs := FloatersOf(queue, k);
    if fs != [] { FloaterMember(queue, k, fs[0]); }
  }

  lemma NextResolved(all: seq<Group>, q0: seq<Group>, queue: seq<Group>, i: nat)
    requires i < |all| && Halfway(all, q0, queue, i)
    ensures i < |queue| && Halfway(all, q0, queue[i := all[i]], i + 1)
    ensures all[..i] + [all[i]] == all[..i + 1]
  {
  }

  /** The first `i` groups of the queue are resolved. */
  ghost predicate Halfway(all: seq<Group>, q0: seq<Group>, queue: seq<Group>, i: nat) {
    i <= |all| == |q0| && queue == all[..i] + q0[i..]
  }

  lemma HalfwayEnds(all: seq<Group>, q0: seq<Group>)
    requires |all| == |q0|
    ensures Halfway(all, q0, q0, 0) && all[..0] == []
    ensures forall queue :: Halfway(all, q0, queue, |all|) ==> queue == all
    ensures all[..|all|] == all
  {
  }

  lemma NothingFiled()
    ensures Floaters([]) == map[]
  {
  }

  lemma HostIsThere(hs: seq<HostStats>, i: nat)
    requires i < |hs|
    ensures HasHost(multiset(hs), hs[i].name)
  {
    assert hs[i] in multiset(hs);
  }

  class Scheduler {
    var queue: seq<Group>
    const hosts: array<HostStats>
    const ord: SortBy
    var res: Result
    var colocated: map<string, seq<Group>>

    constructor (queue: seq<Group>, hosts: array<HostStats>, ord: SortBy)
      ensures this.queue == queue && this.hosts == hosts && this.ord == ord
    {
      this.queue, this.hosts, this.ord := queue, hosts, ord;
      res, colocated := map[], map[];
    }

    /** Floating VMs are still on file for every VM that has not been placed. */
    ghost predicate OnFile(entered: seq<string>)
      reads this`colocated, this`queue
    {
      forall x :: x !in entered ==> At(colocated, x) == At(Floaters(queue), x)
    }

    /** Lower the host's limit and commit one VM's demands to it
        (src/minimega/scheduler.go:161-179). */
    method Admit(host: HostStats, q: Group, ghost name: string)
      modifies host
      ensures host.View() == Grown(old(host.View()), [q.Only(name)])
    {
      var limit := q.coschedule;
      if limit != -1 {
        limit := limit + 1;
        if host.limit == -1 {
          host.limit := limit;
        } else if limit < host.limit {
          host.limit := limit;
        }
      }
      host.vms := host.vms + 1;
      host.cpuCommit := host.cpuCommit + q.vcpus;
      host.memCommit := host.memCommit + q.memory;
      host.netCommit := host.netCommit + q.networks;
      GrownByOne(old(host.View()), q.Only(name));
    }

    /** Place one VM that floats with `name`, with its own followers. */
    method AddKid(host: HostStats, ghost name: string, kid: Vm, ghost entered: seq<string>, ghost rest: seq<string>,
                  ghost done: seq<string>)
      returns (ok: bool, ghost t: seq<string>, ghost ps: seq<Group>)
      requires GoodQueue(queue) && name in NamesOf(queue)
      requires Growing(queue, entered, name, [name] + rest, done)
      requires kid.group in queue && kid.name in kid.group.names
      requires ChildOf(queue, kid.name, name) && kid.name !in done
      requires OnFile(entered + ([name] + rest)) && host.View().Sane()
      modifies this`res, this`colocated, host
      ensures ok ==> Growing(queue, entered, name, [name] + (rest + t), done + [kid.name])
      ensures ok ==> Places(queue, t, ps)
      ensures ok ==> colocated == old(colocated) - NameSet(t)
      ensures ok ==> AppendedTo(old(res), res, host.name, ps)
      ensures ok ==> host.View() == Grown(old(host.View()), ps) && host.View().Sane()
      ensures !ok ==> host.View().IsOver()
      decreases NameSet(NamesOf(queue)) - NameSet(entered), 0
    {
      hide Growing, Places, Ready, AppendedTo, Grown, NamesOf, Floaters, FloatersOf, ChildOf, Subtree, UpClosed, Distinct;
      ghost var s, h0 := [name] + rest, host.View();
      assert s[0] == name;
      TopIsNew(queue, entered, name, s, done);
      KidIsReady(queue, entered, name, s, done, kid.name);
      Shrinks(queue, entered, s, name);
      ok, t, ps := Add(host, kid.name, kid.group, entered + s);
      if ok {
        GrowingKid(queue, entered, name, s, done, kid.name, t);
        assert s + t == [name] + (rest + t);
        OneVmCoschedule(queue, t, ps);
        GrownIsHeavier(NetCommit, h0, ps);
      }
    }

    /** Place the VMs that float with `name`, which has just been admitted
        (src/minimega/scheduler.go:182-189). */
    method AddKids(host: HostStats, name: string, ghost entered: seq<string>)
      returns (ok: bool, ghost rest: seq<string>, ghost placed: seq<Group>)
      requires GoodQueue(queue) && name in NamesOf(queue)
      requires Ready(queue, entered, name) && OnFile(entered) && host.View().Sane()
      modifies this`res, this`colocated, host
      ensures ok ==> Growing(queue, entered, name, [name] + rest, NamesOf(At(Floaters(queue), name)))
      ensures ok ==> Places(queue, rest, placed)
      ensures ok ==> colocated == old(colocated) - NameSet(rest)
      ensures ok ==> AppendedTo(old(res), res, host.name, placed)
      ensures ok ==> host.View() == Grown(old(host.View()), placed)
      ensures !ok ==> host.View().IsOver()
      ensures At(old(colocated), name) == [] ==> ok && placed == []
      decreases NameSet(NamesOf(queue)) - NameSet(entered), 1
    {
      hide Growing, Places, Ready, AppendedTo, NameSet, Grown, NamesOf, Floaters, FloatersOf, GoodQueue, ChildOf, Each, Vms;
      NotPlacedYet(queue, entered, name);
      var kids := Vms(At(colocated, name));
      ghost var names := NamesOf(At(Floaters(queue), name));
      ghost var h0, files0, res0 := host.View(), colocated, res;
      rest, placed, ok := [], [], true;
      ghost var done: seq<string> := [];
      GrowingStarts(queue, entered, name);
      PlacesNone(queue);
      assert [name] + rest == [name];
      GrownByNone(h0);
      RemovedNone(files0);
      AppendedNone(res, host.name);
      for i := 0 to |kids|
        invariant done == names[..i] && Growing(queue, entered, name, [name] + rest, done)
        invariant Places(queue, rest, placed)
        invariant colocated == files0 - NameSet(rest)
        invariant AppendedTo(res0, res, host.name, placed)
        invariant host.View() == Grown(h0, placed) && host.View().Sane()
        invariant i == 0 ==> placed == []
      {
        var kid := kids[i];
        ghost var res1, t, ps := res, [], [];
        KidFacts(queue, name, kid, i);
        StillOnFile(colocated, queue, files0, entered, name, rest);
        ok, t, ps := AddKid(host, name, kid, entered, rest, done);
        if !ok {
          return;
        }
        PlacesConcat(queue, rest, placed, t, ps);
        GrownConcat(h0, placed, ps);
        AppendedTwice(res0, res1, res, host.name, placed, ps);
        RemovedTwice(files0, rest, t);
        assert names[..i] + [kid.name] == names[..i + 1];
        rest, placed, done := rest + t, placed + ps, done + [kid.name];
      }
      assert names[..|names|] == names;
    }

    /** Place a VM and everything that floats with it on a host
        (src/minimega/scheduler.go:160-206). */
    method Add(host: HostStats, name: string, q: Group, ghost entered: seq<string>)
      returns (ok: bool, ghost tree: seq<string>, ghost ps: seq<Group>)
      requires GoodQueue(queue) && q in queue && name in q.names
      requires Ready(queue, entered, name) && OnFile(entered) && host.View().Sane()
      modifies this`res, this`colocated, host
      ensures ok ==> Subtree(queue, name, tree) && Places(queue, tree, ps)
      ensures ok ==> Distinct(entered + tree) && UpClosed(queue, entered + tree)
      ensures ok ==> colocated == old(colocated) - NameSet(tree)
      ensures ok ==> AppendedTo(old(res), res, host.name, ps)
      ensures ok ==> host.View() == Grown(old(host.View()), ps)
      ensures ok ==> host.limit == -1 || host.vms <= host.limit
      ensures !ok ==> host.View().IsOver()
      ensures At(old(colocated), name) == [] && q.coschedule == -1 ==> (ok <==> !old(host.View().IsFull()))
      decreases NameSet(NamesOf(queue)) - NameSet(entered), 2
    {
      hide Growing, Places, Ready, Subtree, Distinct, UpClosed, AppendedTo, NamesOf, Floaters, FloatersOf;
      NotPlacedYet(queue, entered, name);
      ghost var h0, p, res0 := host.View(), q.Only(name), res;
      tree, ps := [], [];
      NameInGroup(queue, q, name);
      Admit(host, q, name);
      GrownIsHeavier(NetCommit, h0, [p]);
      GrownByOne(h0, p);
      GrownByNone(host.View());
      ghost var rest, placed;
      ok, rest, placed := AddKids(host, name, entered);
      if !ok {
        return;
      }
      colocated := colocated - {name};
      if host.limit != -1 && host.vms > host.limit {
        return false, tree, ps;
      }
      ghost var res1 := res;
      var q2 := q.(names := [name]);
      res := res[host.name := At(res, host.name) + [q2]];
      tree, ps := [name] + rest, placed + [p];
      SubtreeDone(queue, entered, name, rest);
      OneVmCoschedule(queue, rest, placed);
      GrownFirstLast(h0, p, placed);
      PlacesTop(queue, name, q, rest, placed);
      AppendedOne(res1, host.name, p);
      AppendedTwice(res0, res1, res, host.name, placed, [p]);
    }

    // Choosing hosts

    ghost function Loads(): seq<Stats>
      reads hosts, hosts[..]
    {
      Views(hosts[..])
    }

    /** src/minimega/scheduler.go:149-157 */
    method FindHost(name: string) returns (i: int)
      ensures -1 <= i < hosts.Length
      ensures i >= 0 ==> hosts[i].name == name
      ensures i == -1 ==> forall j :: 0 <= j < hosts.Length ==> hosts[j].name != name
    {
      for j := 0 to hosts.Length
        invariant forall k :: 0 <= k < j ==> hosts[k].name != name
      {
        if hosts[j].name == name {
          return j;
        }
      }
      return -1;
    }

    /** Least loaded host at the top, no host twice. */
    ghost predicate HeapOk()
      reads hosts, hosts[..]
    {
      HostsOk(hosts[..]) && AllSane(Loads()) && HeapFrom(ord, Loads(), 0)
    }

    /** Restore the heap after the host at position `r` has grown. */
    method Rebalance(r: nat, ghost vs: seq<Stats>)
      requires HostsOk(hosts[..]) && AllSane(vs) && HeapFrom(ord, vs, 0)
      requires r < hosts.Length == |vs| && Loads() == vs[r := hosts[r].View()]
      requires hosts[r].View().Sane() && AtMost(ord, vs[r], hosts[r].View())
      modifies hosts
      ensures multiset(hosts[..]) == multiset(old(hosts[..]))
      ensures HeapOk() && forall v :: v in Loads() ==> v in old(Loads())
    {
      ghost var hs := hosts[..];
      ViewNamesDiffer(hs);
      Update(ord, hosts, hosts[r].name, vs, r);
      SameHosts(hs, hosts[..]);
    }

    /** Place a VM on the host at position `r` and restore the heap
        (src/minimega/scheduler.go:113-118). */
    method PlaceOn(r: nat, vm: Vm, ghost entered: seq<string>)
      returns (ok: bool, ghost tree: seq<string>, ghost ps: seq<Group>)
      requires HeapOk() && r < hosts.Length
      requires GoodQueue(queue) && vm.group in queue && vm.name in vm.group.names
      requires Ready(queue, entered, vm.name) && OnFile(entered)
      modifies this`res, this`colocated, hosts, hosts[..]
      ensures multiset(hosts[..]) == multiset(old(hosts[..]))
      ensures ok ==> HeapOk()
      ensures ok ==> Subtree(queue, vm.name, tree) && Places(queue, tree, ps)
      ensures ok ==> Distinct(entered + tree) && UpClosed(queue, entered + tree)
      ensures ok ==> colocated == old(colocated) - NameSet(tree)
      ensures ok ==> AppendedTo(old(res), res, old(hosts[r].name), ps)
      ensures ok ==> var ws := old(Loads())[r := Grown(old(Loads())[r], ps)];
        (ws[r].limit == -1 || ws[r].vms <= ws[r].limit) && forall v :: v in Loads() ==> v in ws
      ensures !ok ==> hosts[..] == old(hosts[..]) && Loads() == old(Loads())[r := hosts[r].View()] && hosts[r].View().IsOver()
      ensures At(old(colocated), vm.name) == [] && vm.group.coschedule == -1 ==>
                (ok <==> !old(hosts[r].View().IsFull()))
    {
      hide Subtree, Places, Ready, UpClosed, Distinct, GoodQueue, AppendedTo, HeapFrom;
      ghost var vs := Loads();
      var host := hosts[r];
      OthersDiffer(hosts[..], r);
      ok, tree, ps := Add(host, vm.name, vm.group, entered);
      assert Loads() == vs[r := host.View()];
      if ok {
        OneVmCoschedule(queue, tree, ps);
        GrownIsHeavier(ord, vs[r], ps);
        Rebalance(r, vs);
      }
    }

    /** Everything that holds between two placements. */
    ghost predicate Between(entered: seq<string>, home: map<string, string>, base: map<string, Stats>)
      reads this, hosts, hosts[..]
    {
      && HeapOk() && GoodQueue(queue) && Settled(queue, entered, home, res)
      && colocated == Floaters(queue) - NameSet(entered)
      && Accounted(base, Loads(), res) && WithinLimits(Loads(), res) && AllThere(base, multiset(hosts[..]))
    }

    lemma BetweenAccounts(entered: seq<string>, home: map<string, string>, base: map<string, Stats>)
      requires Between(entered, home, base)
      ensures Accounted(base, Loads(), res) && WithinLimits(Loads(), res)
    {
    }

    /** Host `r` is the right one for a VM: the one it names, else the first. */
    lemma RightHost(base: map<string, Stats>, vm: Vm, r: nat)
      requires HeapOk() && r < hosts.Length && Accounted(base, Loads(), res) && AllThere(base, multiset(hosts[..]))
      requires vm.group in queue && vm.name in vm.group.names
      requires if vm.group.schedule != "" then hosts[r].name == vm.group.schedule else r == 0
      ensures Chosen(queue, ord, base, Placing(vm, hosts[r].name, Loads(), res, []))
    {
      AllCovered(base, hosts[..]);
      if vm.group.schedule == "" { RootIsBest(ord, Loads()); }
    }

    /** Place a VM that does not float: on the host it names, otherwise on the
        least loaded one (src/minimega/scheduler.go:104-119). */
    method PlaceRoot(vm: Vm, ghost entered: seq<string>, ghost home: map<string, string>, ghost base: map<string, Stats>)
      returns (ok: bool, host: string, ghost tree: seq<string>, ghost p: Placing)
      requires Between(entered, home, base) && hosts.Length > 0
      requires vm.group in queue && vm.name in vm.group.names && !vm.group.Floating() && vm.name !in entered
      requires vm.group.schedule != "" ==> HasHost(multiset(hosts[..]), vm.group.schedule)
      modifies this`res, this`colocated, hosts, hosts[..]
      ensures multiset(hosts[..]) == multiset(old(hosts[..])) && HasHost(multiset(hosts[..]), host)
      ensures ok ==> Between(entered + tree, Settle(home, tree, host), base) && Chained(queue, vm.name, tree)
      ensures Chosen(queue, ord, base, p) && p.vm == vm && p.host == host && p.before == old(Loads()) && p.placed == old(res)
      ensures ok ==> AppendedTo(old(res), res, host, p.followers) && vm.name in NamesOf(p.followers)
      ensures !ok ==> OverLimit(old(Loads()), Loads(), host)
      ensures !ok && Unlimited(queue, vm) ==> forall v :: v in old(Loads()) || v in Loads() ==> v.IsFull()
    {
      hide Assignment.Settled, Accounted, WithinLimits, Subtree, Places, AppendedTo, Distinct, UpClosed, NamesOf,
           Floaters, HeapFrom, HostsOk, Ready, Settle, NameSet, Chained, Grown, OneVm, Covers, BestHost, AllThere;
      var r := 0;
      if vm.group.schedule != "" {
        r := FindHost(vm.group.schedule);
      }
      host := hosts[r].name;
      assert hosts[r] in multiset(hosts[..]);
      ghost var vs, res0 := Loads(), res;
      assert Root(queue, vm.name);
      RootIsReady(queue, entered, home, res, vm.name);
      StillFiled(queue, colocated, entered);
      ViewNamesDiffer(hosts[..]);
      RightHost(base, vm, r);
      ghost var ps;
      ok, tree, ps := PlaceOn(r, vm, entered);
      p := Placing(vm, host, vs, res0, ps);
      if ok {
        TopIsPlaced(queue, vm.name, tree, ps);
        RemovedTwice(Floaters(queue), entered, tree);
        SettledAfter(queue, entered, home, res0, res, host, vm.name, vm.group, tree, ps);
        ghost var ws := vs[r := Grown(vs[r], ps)];
        AccountedAfter(base, vs, ws, res0, res, r, ps);
        AccountedReordered(base, ws, Loads(), res);
        SubtreeIsChained(queue, vm.name, tree);
      } else {
        assert OverLimitAt(vs, Loads(), host, r);
        if Unlimited(queue, vm) { AllFull(ord, vs); }
      }
    }

    /** Place all VMs that do not float, in the order the sort left
        (src/minimega/scheduler.go:98-120). */
    method WorkOff(order: seq<Group>, ghost base: map<string, Stats>)
      returns (ok: bool, host: string, ghost entered: seq<string>, ghost home: map<string, string>,
               ghost log: seq<Placing>, ghost why: Placing)
      requires Between([], map[], base) && res == map[] && GoodQueue(queue) && hosts.Length > 0 && multiset(order) == multiset(queue)
      requires forall g :: g in queue && g.schedule != "" ==> HasHost(multiset(hosts[..]), g.schedule)
      modifies this`res, this`colocated, hosts, hosts[..]
      ensures multiset(hosts[..]) == multiset(old(hosts[..]))
      ensures ok ==> Between(entered, home, base) && forall x :: Root(queue, x) ==> x in entered
      ensures ok ==> AtHosts(home, multiset(hosts[..]))
      ensures InOrder(log, order) && LogOk(queue, ord, base, log, if ok then res else why.placed)
      ensures ok ==> |log| == |Vms(RootsOf(order))|
      ensures !ok ==> |log| < |Vms(RootsOf(order))| && why.vm == Vms(RootsOf(order))[|log|]
      ensures !ok ==> Refused(queue, ord, base, Loads(), host, why)
    {
      hide Assignment.Settled, Accounted, WithinLimits, Distinct, NamesOf, Floaters, HeapFrom, HostsOk, AllSane, NameSet,
           Chained, Unlimited, OverLimit, Waiting, AtHosts, Settle, Vms, RootsOf, HasHost, Between, HeapOk, GoodQueue, Loads,
           Chosen, LogOk, InOrder, AppendedTo;
      var work := Vms(RootsOf(order));
      entered, home, ok, host := [], map[], true, "";
      log, why := [], NO_PLACING;
      NobodyPlaced(order, multiset(hosts[..]));
      EmptyLog(queue, ord, base, order);
      for i := 0 to |work|
        invariant multiset(hosts[..]) == multiset(old(hosts[..]))
        invariant forall j :: 0 <= j < hosts.Length ==> hosts[j] in old(hosts[..])
        invariant Between(entered, home, base)
        invariant Waiting(order, i, entered) && AtHosts(home, multiset(hosts[..]))
        invariant |log| == i && InOrder(log, order) && LogOk(queue, ord, base, log, res)
      {
        ghost var tree;
        BetweenAccounts(entered, home, base);
        WorkItem(queue, order, entered, i);
        ok, host, tree, why := PlaceRoot(work[i], entered, home, base);
        if !ok {
          return;
        }
        LogGrows(queue, ord, base, order, log, why, res);
        log := log + [why];
        SameElements(old(hosts[..]), hosts[..]);
        NextWaits(queue, order, entered, tree, i);
        SettleAtHost(home, tree, host, multiset(hosts[..]));
        entered, home := entered + tree, Settle(home, tree, host);
      }
      AllWorkIsDone(queue, order, entered);
    }

    /** File a group under the VM it follows. */
    method FileAway(ghost seen: seq<Group>, q: Group)
      requires colocated == Floaters(seen)
      modifies this`colocated
      ensures colocated == Floaters(seen + [q])
    {
      hide Floaters, FloatersOf;
      FloatersExtend(seen, q);
      if q.Floating() {
        FloatersAt(seen, q.colocate);
        colocated := colocated[q.colocate := At(colocated, q.colocate) + [q]];
      }
    }

    /** Whether the host a group names, if any, is there. */
    method Check(q: Group) returns (ok: bool)
      ensures ok ==> Known(multiset(hosts[..]), q)
      ensures !ok ==> q.schedule != "" && !HasHost(multiset(hosts[..]), q.schedule)
    {
      ok := true;
      if q.schedule != "" {
        var at := FindHost(q.schedule);
        if at == -1 {
          NoHostNamed(hosts[..], q.schedule);
          ok := false;
        } else {
          HostIsThere(hosts[..], at);
        }
      }
    }

    /** Resolve host names and file the floating VMs
        (src/minimega/scheduler.go:53-74). */
    method Prepare(hostname: string) returns (ok: bool, bad: string)
      modifies this`queue, this`res, this`colocated
      ensures res == map[]
      ensures ok ==> queue == Resolved(old(queue), hostname) && colocated == Floaters(queue)
      ensures ok ==> forall g :: g in queue ==> Known(multiset(hosts[..]), g)
      ensures !ok ==> bad != "" && !HasHost(multiset(hosts[..]), bad)
                      && exists g :: g in Resolved(old(queue), hostname) && g.schedule == bad
    {
      hide Floaters, FloatersOf, HasHost, Known, Resolve, Halfway;
      var q0 := queue;
      ghost var all := Resolved(q0, hostname);
      res, colocated := map[], map[];
      NothingFiled();
      HalfwayEnds(all, q0);
      for i := 0 to |q0|
        invariant res == map[] && Halfway(all, q0, queue, i) && colocated == Floaters(all[..i])
        invariant forall g :: g in all[..i] ==> Known(multiset(hosts[..]), g)
      {
        var q := Resolve(q0[i], hostname);
        NextResolved(all, q0, queue, i);
        queue := queue[i := q];
        var fine := Check(q);
        if !fine {
          assert all[i] in all;
          return false, q.schedule;
        }
        FileAway(all[..i], q);
      }
      return true, "";
    }

    /** Sort the hosts and open the books. */
    method Open(ghost base: map<string, Stats>)
      requires HostsOk(hosts[..]) && AllSane(Loads()) && GoodQueue(queue)
      requires res == map[] && colocated == Floaters(queue) && Based(base, Loads()) && AllThere(base, multiset(hosts[..]))
      modifies hosts
      ensures multiset(hosts[..]) == multiset(old(hosts[..])) && Between([], map[], base) && res == map[]
    {
      ghost var hs := hosts[..];
      Heapify(ord, hosts);
      SameHosts(hs, hosts[..]);
      NothingSettled(queue);
      RemovedNone(Floaters(queue));
      NothingPlaced(base, Loads());
    }

    /** What the answer of the scheduler means for more than one host. */
    ghost predicate Answer(q: seq<Group>, order: seq<Group>, base: map<string, Stats>, r: Outcome, home: map<string, string>,
                           log: seq<Placing>, why: Placing)
      reads this, hosts, hosts[..]
    {
      match r
      case Done(m) =>
        Complete(q, home, m) && AtHosts(home, multiset(hosts[..])) && AllAnchored(q) &&
        Accounted(base, Loads(), m) && WithinLimits(Loads(), m) &&
        InOrder(log, order) && |log| == |Vms(RootsOf(order))| && LogOk(q, ord, base, log, m)
      case NoHosts => false
      case UnknownHost(h) =>
        h != "" && (exists g :: g in q && g.schedule == h) && !HasHost(multiset(hosts[..]), h)
      case TooMany(h) =>
        Refused(q, ord, base, Loads(), h, why) && InOrder(log, order) && LogOk(q, ord, base, log, why.placed) &&
        |log| < |Vms(RootsOf(order))| && why.vm == Vms(RootsOf(order))[|log|]
      case NoSuchVms(ks) =>
        ks != {} && ks == (set k | k in Floaters(q) && !IsAnchored(q, k)) && ((forall g :: g in q ==> g.names != []) ==> !AllAnchored(q))
    }

    /** Place everything on the hosts and look for VMs that were never placed
        (src/minimega/scheduler.go:86-131). */
    method Assign(order: seq<Group>, ghost base: map<string, Stats>)
      returns (r: Outcome, ghost home: map<string, string>, ghost log: seq<Placing>, ghost why: Placing)
      requires HostsOk(hosts[..]) && AllSane(Loads()) && GoodQueue(queue) && hosts.Length > 0
      requires res == map[] && colocated == Floaters(queue) && Based(base, Loads()) && AllThere(base, multiset(hosts[..]))
      requires multiset(order) == multiset(queue)
      requires forall g :: g in queue ==> Known(multiset(hosts[..]), g)
      modifies this`res, this`colocated, hosts, hosts[..]
      ensures multiset(hosts[..]) == multiset(old(hosts[..])) && Answer(queue, order, base, r, home, log, why)
    {
      hide Assignment.Settled, Accounted, WithinLimits, Distinct, NamesOf, Floaters, HeapFrom, HostsOk, AllSane, NameSet,
           Unlimited, OverLimit, AtHosts, HasHost, HeapOk, GoodQueue, Complete, AllAnchored, IsAnchored, Loads, Based,
           AllThere, LogOk, InOrder, Chosen, Vms, RootsOf;
      Open(base);
      SameElements(old(hosts[..]), hosts[..]);
      var ok, host;
      ghost var entered;
      ok, host, entered, home, log, why := WorkOff(order, base);
      if !ok {
        return TooMany(host), home, log, why;
      }
      if colocated != map[] {
        FilesRemain(queue, colocated, entered, home, res);
        return NoSuchVms(colocated.Keys), home, log, why;
      }
      FilesEmpty(queue, entered, home, res);
      return Done(res), home, log, why;
    }

    /** Schedule the whole queue. `order` is the queue as the sort leaves it
        (src/minimega/scheduler.go:40-133). */
    method Schedule(hostname: string, order: seq<Group>)
      returns (r: Outcome, ghost home: map<string, string>, ghost log: seq<Placing>, ghost why: Placing)
      requires HostsOk(hosts[..]) && AllSane(Loads()) && GoodQueue(queue)
      requires multiset(order) == multiset(Resolved(queue, hostname))
      modifies this, hosts, hosts[..]
      ensures hosts.Length == 0 ==> r == NoHosts
      ensures hosts.Length == 1 ==> r == Done(map[old(hosts[0].name) := old(queue)])
      ensures multiset(hosts[..]) == multiset(old(hosts[..]))
      ensures hosts.Length > 1 ==> 
                Answer(Resolved(old(queue), hostname), order, BaseOf(old(Loads())), r, home, log, why)
    {
      hide Assignment.Settled, Accounted, WithinLimits, Distinct, NamesOf, Floaters, HostsOk, AllSane, NameSet,
           Unlimited, OverLimit, AtHosts, HasHost, GoodQueue, Complete, AllAnchored, IsAnchored, BaseOf, Based, Resolve, NamesDistinct,
           AllThere, LogOk, InOrder, Refused, Vms, RootsOf;
      home, log, why := map[], [], NO_PLACING;
      if hosts.Length == 0 {
        return NoHosts, home, log, why;
      }
      if hosts.Length == 1 {
        return Done(map[hosts[0].name := queue]), home, log, why;
      }
      ghost var base := BaseOf(Loads());
      ResolvedIsGood(queue, hostname);
      ViewNamesDiffer(hosts[..]);
      BaseIsBase(Loads());
      BaseIsThere(hosts[..]);
      var known, bad := Prepare(hostname);
      if !known {
        return UnknownHost(bad), home, log, why;
      }
      r, home, log, why := Assign(order, base);
    }
  }

  /** The stats the hosts start from, by name. */
  ghost function BaseOf(vs: seq<Stats>): map<string, Stats> {
    if vs == [] then map[] else BaseOf(vs[..|vs| - 1])[vs[|vs| - 1].name := vs[|vs| - 1]]
  }

  ghost predicate Based(base: map<string, Stats>, vs: seq<Stats>) {
    forall v :: v in vs ==> v.name in base && base[v.name] == v
  }

  lemma {:induction false} BaseIsBase(vs: seq<Stats>)
    requires NamesDistinct(vs)
    ensures Based(BaseOf(vs), vs)
  {
    if vs != [] {
      var init := vs[..|vs| - 1];
      BaseIsBase(init);
      forall v | v in vs
        ensures v.name in BaseOf(vs) && BaseOf(vs)[v.name] == v
      {
        var i :| 0 <= i < |vs| && vs[i] == v;
        if i < |init| { assert init[i] == v; }
      }
    }
  }

  lemma NothingPlaced(base: map<string, Stats>, vs: seq<Stats>)
    requires Based(base, vs)
    ensures Accounted(base, vs, map[]) && WithinLimits(vs, map[])
  {
    forall v | v in vs
      ensures v == Grown(base[v.name], At(map[], v.name))
    {
      GrownByNone(v);
    }
  }

  lemma NoHostNamed(hs: seq<HostStats>, name: string)
    requires forall j :: 0 <= j < |hs| ==> hs[j].name != name
    ensures !HasHost(multiset(hs), name)
  {
    forall h | h in multiset(hs)
      ensures h.name != name
    {
      assert h in hs;
    }
  }

  lemma FilesRemain(queue: seq<Group>, colocated: map<string, seq<Group>>, entered: seq<string>,
                    home: map<string, string>, res: Result)
    requires Assignment.Settled(queue, entered, home, res) && (forall r :: Root(queue, r) ==> r in entered)
    requires colocated == Floaters(queue) - NameSet(entered) && colocated != map[]
    ensures colocated.Keys != {} && colocated.Keys == set k | k in Floaters(queue) && !IsAnchored(queue, k)
    ensures (forall g :: g in queue ==> g.names != []) ==> !AllAnchored(queue)
  {
    forall k | k in Floaters(queue)
      ensures k in entered <==> IsAnchored(queue, k)
    {
      if IsAnchored(queue, k) {
        var n: nat :| Anchored(queue, k, n);
        AnchoredAreListed(queue, entered, k, n);
      }
    }
    var k :| k in colocated;
    if forall g :: g in queue ==> g.names != [] {
      StuckWhenFilesRemain(queue, entered, home, res, k);
    }
  }

  lemma FilesEmpty(queue: seq<Group>, entered: seq<string>, home: map<string, string>, res: Result)
    requires Assignment.Settled(queue, entered, home, res) && (forall r :: Root(queue, r) ==> r in entered)
    requires Floaters(queue) - NameSet(entered) == map[]
    ensures Complete(queue, home, res) && AllAnchored(queue)
  {
    forall k | k in Floaters(queue)
      ensures k in entered
    {
      assert k in NameSet(entered) || k in Floaters(queue) - NameSet(entered);
    }
    CompleteWhenFilesEmpty(queue, entered, home, res);
  }

  ghost predicate AtHosts(home: map<string, string>, hs: multiset<HostStats>) {
    forall x :: x in home ==> HasHost(hs, home[x])
  }

  /** Of the VMs to be placed directly, the first `i` have been placed. */
  ghost predicate Waiting(order: seq<Group>, i: nat, entered: seq<string>) {
    var work := Vms(RootsOf(order));
    && i <= |work| && (forall j :: 0 <= j < i ==> work[j].name in entered)
    && (forall j :: i <= j < |work| ==> work[j].name !in entered)
  }

  lemma NobodyPlaced(order: seq<Group>, hs: multiset<HostStats>)
    ensures Waiting(order, 0, []) && AtHosts(map[], hs)
  {
  }

  lemma SettleAtHost(home: map<string, string>, tree: seq<string>, host: string, hs: multiset<HostStats>)
    requires AtHosts(home, hs) && HasHost(hs, host)
    ensures AtHosts(Settle(home, tree, host), hs)
  {
  }

  lemma WorkItem(queue: seq<Group>, order: seq<Group>, entered: seq<string>, i: nat)
    requires GoodQueue(queue) && multiset(order) == multiset(queue) && i < |Vms(RootsOf(order))|
    requires Waiting(order, i, entered)
    ensures var vm := Vms(RootsOf(order))[i];
      vm.group in queue && vm.name in vm.group.names && !vm.group.Floating() && vm.name !in entered
  {
    WorkIsRoots(queue, order);
  }

  /** After work item `i` with followers `tree`, the later items still wait. */
  lemma NextWaits(queue: seq<Group>, order: seq<Group>, entered: seq<string>, tree: seq<string>, i: nat)
    requires GoodQueue(queue) && multiset(order) == multiset(queue) && i < |Vms(RootsOf(order))|
    requires Chained(queue, Vms(RootsOf(order))[i].name, tree) && Waiting(order, i, entered)
    ensures Waiting(order, i + 1, entered + tree)
  {
    var work := Vms(RootsOf(order));
    WorkIsRoots(queue, order);
    assert tree[0] == work[i].name;
    forall j | i < j < |work|
      ensures work[j].name !in entered + tree
    {
      assert Root(queue, work[j].name);
      LaterRootsWait(queue, entered, work[i].name, tree, work[j].name);
    }
  }

  lemma AllWorkIsDone(queue: seq<Group>, order: seq<Group>, entered: seq<string>)
    requires GoodQueue(queue) && multiset(order) == multiset(queue)
    requires Waiting(order, |Vms(RootsOf(order))|, entered)
    ensures forall x :: Root(queue, x) ==> x in entered
  {
    WorkIsRoots(queue, order);
    forall x | Root(queue, x)
      ensures x in entered
    {
      var names := NamesOf(RootsOf(order));
      var j :| 0 <= j < |names| && names[j] == x;
      assert Vms(RootsOf(order))[j].name == x;
    }
  }

  lemma SameElements(a: seq<HostStats>, b: seq<HostStats>)
    requires multiset(a) == multiset(b)
    ensures forall j :: 0 <= j < |b| ==> b[j] in a
  {
    forall j | 0 <= j < |b|
      ensures b[j] in a
    {
      assert b[j] in multiset(b);
      assert b[j] in multiset(a);
    }
  }

  ghost predicate Known(hs: multiset<HostStats>, g: Group) {
    g.schedule != "" ==> HasHost(hs, g.schedule)
  }

  ghost predicate HasHost(hs: multiset<HostStats>, name: string) {
    exists h :: h in hs && h.name == name
  }

  /** Host `r` has come to hold more VMs than its limit, the others are as before. */
  ghost predicate OverLimitAt(vs: seq<Stats>, ws: seq<Stats>, name: string, r: int) {
    0 <= r < |vs| == |ws| && vs[r].name == ws[r].name == name && ws == vs[r := ws[r]] && ws[r].IsOver()
  }

  ghost predicate OverLimit(vs: seq<Stats>, ws: seq<Stats>, name: string) {
    exists r :: OverLimitAt(vs, ws, name, r)
  }

  // The record of a schedule

  /** One VM with its followers is placed on a host; `before` and `placed` are the
      loads and the schedule just before. */
  datatype Placing = Placing(vm: Vm, host: string, before: seq<Stats>, placed: Result, followers: seq<Group>)

  const NO_PLACING: Placing := Placing(Vm("", Group([], "", "", 0, 0, 0, 0)), "", [], map[], [])

  /** Every host is among the loads. */
  ghost predicate Covers(base: map<string, Stats>, vs: seq<Stats>) {
    forall k :: k in base ==> exists v :: v in vs && v.name == k
  }

  ghost predicate AllThere(base: map<string, Stats>, hs: multiset<HostStats>) {
    forall k :: k in base ==> HasHost(hs, k)
  }

  /** No host is to be preferred to the one of that name. */
  ghost predicate BestHost(ord: SortBy, vs: seq<Stats>, name: string) {
    exists h :: h in vs && h.name == name && forall v :: v in vs ==> NoWorse(ord, h, v)
  }

  /** The host is the one the VM names, or else the best by the true loads of all
      hosts. */
  ghost predicate Chosen(queue: seq<Group>, ord: SortBy, base: map<string, Stats>, p: Placing) {
    && p.vm.group in queue && p.vm.name in p.vm.group.names
    && Accounted(base, p.before, p.placed) && Covers(base, p.before)
    && (if p.vm.group.schedule != "" then p.host == p.vm.group.schedule else BestHost(ord, p.before, p.host))
  }

  /** Every placement was on the right host, and together they make the schedule. */
  ghost predicate LogOk(queue: seq<Group>, ord: SortBy, base: map<string, Stats>, log: seq<Placing>, res: Result) {
    && (if log == [] then res == map[] else log[0].placed == map[])
    && forall k :: 0 <= k < |log| ==>
         && Chosen(queue, ord, base, log[k]) && log[k].vm.name in NamesOf(log[k].followers)
         && AppendedTo(log[k].placed, if k == |log| - 1 then res else log[k + 1].placed, log[k].host, log[k].followers)
  }

  /** The VMs that do not float are taken in the order of the sorted queue. */
  ghost predicate InOrder(log: seq<Placing>, order: seq<Group>) {
    |log| <= |Vms(RootsOf(order))| && forall k :: 0 <= k < |log| ==> log[k].vm == Vms(RootsOf(order))[k]
  }

  lemma EmptyLog(queue: seq<Group>, ord: SortBy, base: map<string, Stats>, order: seq<Group>)
    ensures LogOk(queue, ord, base, [], map[]) && InOrder([], order)
  {
  }

  lemma LogGrows(queue: seq<Group>, ord: SortBy, base: map<string, Stats>, order: seq<Group>, log: seq<Placing>,
                 p: Placing, res: Result)
    requires LogOk(queue, ord, base, log, p.placed) && InOrder(log, order)
    requires |log| < |Vms(RootsOf(order))| && p.vm == Vms(RootsOf(order))[|log|]
    requires Chosen(queue, ord, base, p) && p.vm.name in NamesOf(p.followers)
    requires AppendedTo(p.placed, res, p.host, p.followers)
    ensures LogOk(queue, ord, base, log + [p], res) && InOrder(log + [p], order)
  {
    hide Chosen, AppendedTo, NamesOf;
    var l := log + [p];
    forall k | 0 <= k < |l|
      ensures Chosen(queue, ord, base, l[k]) && l[k].vm.name in NamesOf(l[k].followers)
      ensures AppendedTo(l[k].placed, if k == |l| - 1 then res else l[k + 1].placed, l[k].host, l[k].followers)
    {
      if k < |log| {
        assert l[k] == log[k] && l[k + 1] == if k == |log| - 1 then p else log[k + 1];
        assert (if k == |log| - 1 then p.placed else log[k + 1].placed) == l[k + 1].placed;
      }
    }
  }

  lemma AllCovered(base: map<string, Stats>, hs: seq<HostStats>)
    requires AllThere(base, multiset(hs))
    ensures Covers(base, Views(hs))
  {
    forall k | k in base
      ensures exists v :: v in Views(hs) && v.name == k
    {
      var h :| h in multiset(hs) && h.name == k;
      var i :| 0 <= i < |hs| && hs[i] == h;
      assert Views(hs)[i] in Views(hs);
    }
  }

  lemma RootIsBest(ord: SortBy, vs: seq<Stats>)
    requires AllSane(vs) && HeapFrom(ord, vs, 0) && vs != []
    ensures BestHost(ord, vs, vs[0].name)
  {
    forall v | v in vs
      ensures NoWorse(ord, vs[0], v)
    {
      var i :| 0 <= i < |vs| && vs[i] == v;
      RootIsLeast(ord, vs, i);
      AtMostIff(ord, vs[0], v);
    }
  }

  lemma TopIsPlaced(queue: seq<Group>, top: string, tree: seq<string>, ps: seq<Group>)
    requires Subtree(queue, top, tree) && Places(queue, tree, ps)
    ensures top in NamesOf(ps)
  {
    assert tree[0] == top && top in multiset(tree);
    assert top in multiset(NamesOf(ps));
  }

  lemma {:induction false} BaseNames(vs: seq<Stats>, k: string)
    requires k in BaseOf(vs)
    ensures exists i :: 0 <= i < |vs| && vs[i].name == k
  {
    var n := |vs| - 1;
    if vs[n].name != k {
      BaseNames(vs[..n], k);
      var i :| 0 <= i < n && vs[..n][i].name == k;
      assert vs[i].name == k;
    }
  }

  lemma BaseIsThere(hs: seq<HostStats>)
    ensures AllThere(BaseOf(Views(hs)), multiset(hs))
  {
    forall k | k in BaseOf(Views(hs))
      ensures HasHost(multiset(hs), k)
    {
      BaseNames(Views(hs), k);
      var i :| 0 <= i < |hs| && Views(hs)[i].name == k;
      HostIsThere(hs, i);
    }
  }

  /** Why a schedule fails: placing a queued VM with its followers took a host
      over its limit. A VM without limit and followers is refused only if every
      host was full already. */
  ghost predicate Refused(queue: seq<Group>, ord: SortBy, base: map<string, Stats>, now: seq<Stats>, host: string,
                          why: Placing) {
    && Chosen(queue, ord, base, why) && why.host == host && WithinLimits(why.before, why.placed)
    && OverLimit(why.before, now, host)
    && (Unlimited(queue, why.vm) ==> forall v :: v in why.before || v in now ==> v.IsFull())
  }

  /** A VM without a coschedule limit, a host of its own or followers. */
  ghost predicate Unlimited(queue: seq<Group>, vm: Vm) {
    vm.group.schedule == "" && vm.group.coschedule == -1 && At(Floaters(queue), vm.name) == []
  }

  lemma StillFiled(queue: seq<Group>, colocated: map<string, seq<Group>>, entered: seq<string>)
    requires colocated == Floaters(queue) - NameSet(entered)
    ensures forall x :: x !in entered ==> At(colocated, x) == At(Floaters(queue), x)
  {
  }

  lemma SubtreeIsChained(queue: seq<Group>, top: string, tree: seq<string>)
    requires Subtree(queue, top, tree)
    ensures Chained(queue, top, tree)
  {
  }

  /** If the least loaded host is full, all are. */
  lemma AllFull(ord: SortBy, vs: seq<Stats>)
    requires AllSane(vs) && HeapFrom(ord, vs, 0) && vs != [] && vs[0].IsFull()
    ensures forall i :: 0 <= i < |vs| ==> vs[i].IsFull()
  {
    forall i | 0 <= i < |vs|
      ensures vs[i].IsFull()
    {
      RootIsLeast(ord, vs, i);
    }
  }

  lemma OthersDiffer(hs: seq<HostStats>, r: nat)
    requires HostsOk(hs) && r < |hs|
    ensures forall i :: 0 <= i < |hs| && i != r ==> hs[i] != hs[r]
  {
    forall i | 0 <= i < |hs| && i != r
      ensures hs[i] != hs[r]
    {
      HostsDiffer(hs, i, r);
    }
  }
}
