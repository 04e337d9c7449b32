/** The reservation store of igor: a mutable table of reservations, the two
    schedulers over it, and the operations that change it. */
module Reservations {
  import opened Bookings

  // Reading the table by node (src/igor/reservations.go:192-216)

  type Nodes = map<Host, seq<Booking>>

  function At(nodes: Nodes, h: Host): seq<Booking> {
    if h in nodes then nodes[h] else []
  }

  function Insert(b: Booking, rs: seq<Booking>): (r: seq<Booking>)
    ensures multiset(r) == multiset(rs) + multiset{b}
  {
    if rs == [] || b.start < rs[0].start then [b] + rs
    else
      assert rs == [rs[0]] + rs[1..];
      [rs[0]] + Insert(b, rs[1..])
  }

  ghost predicate Sorted(rs: seq<Booking>) {
    forall i, j :: 0 <= i < j < |rs| ==> rs[i].start <= rs[j].start
  }

  lemma {:induction false} InsertSorted(b: Booking, rs: seq<Booking>)
    requires Sorted(rs)
    ensures Sorted(Insert(b, rs))
  {
    if rs != [] && b.start >= rs[0].start {
      var tail := Insert(b, rs[1..]);
      InsertSorted(b, rs[1..]);
      forall x | x in tail
        ensures rs[0].start <= x.start
      {
        assert x in multiset(tail);
        if x != b {
          assert x in rs[1..];
        }
      }
    }
  }

  /** Some ordering by start time, as the library sort leaves it. */
  method SortByStart(rs: seq<Booking>) returns (r: seq<Booking>)
    ensures Sorted(r) && multiset(r) == multiset(rs)
  {
    r := [];
    for i := 0 to |rs|
      invariant Sorted(r) && multiset(r) == multiset(rs[..i])
    {
      InsertSorted(rs[i], r);
      r := Insert(rs[i], r);
      assert rs[..i + 1] == rs[..i] + [rs[i]];
    }
    assert rs[..|rs|] == rs;
  }

  /** `nodes` is `nodes0` with `b` added to the lists of `hosts`. */
  ghost predicate AddedTo(nodes0: Nodes, nodes: Nodes, b: Booking, hosts: seq<Host>) {
    && nodes.Keys == nodes0.Keys + (set h | h in hosts)
    && forall h, x :: x in At(nodes, h) <==> x in At(nodes0, h) || (x == b && h in hosts)
  }

  lemma AddedToNext(nodes0: Nodes, nodes: Nodes, b: Booking, hosts: seq<Host>, h: Host)
    requires AddedTo(nodes0, nodes, b, hosts)
    ensures AddedTo(nodes0, nodes[h := At(nodes, h) + [b]], b, hosts + [h])
  {
    var nodes', hosts' := nodes[h := At(nodes, h) + [b]], hosts + [h];
    forall k, x
      ensures x in At(nodes', k) <==> x in At(nodes0, k) || (x == b && k in hosts')
    {
      assert x in At(nodes', k) <==> x in At(nodes, k) || (x == b && k == h);
      assert k in hosts' <==> k in hosts || k == h;
    }
  }

  method AddToHosts(nodes0: Nodes, b: Booking) returns (nodes: Nodes)
    ensures AddedTo(nodes0, nodes, b, b.hosts)
  {
    hide AddedTo;
    nodes := nodes0;
    NothingAdded(nodes0, b);
    assert b.hosts[..0] == [];
    for i := 0 to |b.hosts|
      invariant AddedTo(nodes0, nodes, b, b.hosts[..i])
    {
      var h := b.hosts[i];
      AddedToNext(nodes0, nodes, b, b.hosts[..i], h);
      nodes := nodes[h := At(nodes, h) + [b]];
      assert b.hosts[..i + 1] == b.hosts[..i] + [h];
    }
    assert b.hosts[..|b.hosts|] == b.hosts;
  }

  lemma NothingAdded(nodes0: Nodes, b: Booking)
    ensures AddedTo(nodes0, nodes0, b, [])
  {
  }

  lemma SoundTimeline(t: Table, h: Host, rs: seq<Booking>)
    requires Sound(t) && Lists(t, h, rs) && Sorted(rs)
    ensures Timeline(rs)
  {
    forall i | 0 <= i < |rs|
      ensures rs[i].WellTimed()
    {
      assert rs[i] in rs;
    }
    forall i, j | 0 <= i < j < |rs| && rs[i] != rs[j]
      ensures rs[i].end <= rs[j].start
    {
      assert rs[i] in rs && rs[j] in rs;
      var a :| a in t && t[a] == rs[i] && h in rs[i].hosts;
      var b :| b in t && t[b] == rs[j] && h in rs[j].hosts;
      assert Compatible(t[a], t[b]);
    }
  }

  ghost predicate NodesOf(t: Table, nodes: Nodes) {
    forall h :: h in nodes ==> Lists(t, h, nodes[h]) && Timeline(nodes[h])
  }

  lemma PermutationLists(t: Table, h: Host, rs: seq<Booking>, r: seq<Booking>)
    requires Lists(t, h, rs) && multiset(r) == multiset(rs)
    ensures Lists(t, h, r)
  {
    forall b
      ensures b in r <==> b in rs
    {
      assert b in multiset(r) <==> b in multiset(rs);
    }
  }

  ghost predicate Known(t: Table, validHosts: seq<Host>, h: Host) {
    h in validHosts || exists i :: i in t && h in t[i].hosts
  }

  ghost predicate From(t: Table, done: set<nat>, h: Host, x: Booking) {
    exists i :: i in t && i in done && t[i] == x && h in x.hosts
  }

  /** `nodes` holds what the reservations `done` put on it. */
  ghost predicate Inverted(t: Table, done: set<nat>, validHosts: seq<Host>, nodes: Nodes) {
    && (forall h :: h in nodes <==> h in validHosts || exists i :: i in t && i in done && h in t[i].hosts)
    && (forall h, x :: x in At(nodes, h) ==> From(t, done, h, x))
    && (forall h, i :: i in t && i in done && h in t[i].hosts ==> t[i] in At(nodes, h))
  }

  lemma InvertOne(t: Table, done: set<nat>, validHosts: seq<Host>, nodes: Nodes, nodes': Nodes, i: nat)
    requires Inverted(t, done, validHosts, nodes) && i in t
    requires nodes'.Keys == nodes.Keys + (set h | h in t[i].hosts)
    requires forall h, x :: x in At(nodes', h) <==> x in At(nodes, h) || (x == t[i] && h in t[i].hosts)
    ensures Inverted(t, done + {i}, validHosts, nodes')
  {
    forall h, x | x in At(nodes', h)
      ensures From(t, done + {i}, h, x)
    {
      if x in At(nodes, h) {
        assert From(t, done, h, x);
        var k :| k in t && k in done && t[k] == x && h in x.hosts;
        assert k in done + {i};
      } else {
        assert i in done + {i};
      }
    }
    forall h
      ensures h in nodes' <==> h in validHosts || exists k :: k in t && k in done + {i} && h in t[k].hosts
    {
      if h in nodes && h !in validHosts {
        var k :| k in t && k in done && h in t[k].hosts;
        assert k in done + {i};
      }
      if h in t[i].hosts { assert i in done + {i}; }
    }
  }

  /** The reservations of every node, valid or booked, in order of their start
      (src/igor/reservations.go:192-216). */
  method NodesFor(t: Table, validHosts: seq<Host>) returns (nodes: Nodes)
    requires Sound(t)
    ensures NodesOf(t, nodes)
    ensures forall h :: h in nodes <==> Known(t, validHosts, h)
  {
    nodes := map[];
    for i := 0 to |validHosts|
      invariant forall h :: h in nodes <==> h in validHosts[..i]
      invariant forall h :: h in nodes ==> nodes[h] == []
    {
      nodes := nodes[validHosts[i] := []];
    }
    assert validHosts[..|validHosts|] == validHosts;
    assert forall h :: At(nodes, h) == [];
    var todo := t.Keys;
    while todo != {}
      invariant todo <= t.Keys && Inverted(t, t.Keys - todo, validHosts, nodes)
    {
      var i :| i in todo;
      var next := AddToHosts(nodes, t[i]);
      InvertOne(t, t.Keys - todo, validHosts, nodes, next, i);
      assert t.Keys - (todo - {i}) == t.Keys - todo + {i};
      nodes := next;
      todo := todo - {i};
    }
    assert t.Keys - todo == t.Keys;
    InvertedLists(t, validHosts, nodes);
    nodes := SortAll(t, nodes);
  }

  lemma InvertedLists(t: Table, validHosts: seq<Host>, nodes: Nodes)
    requires Inverted(t, t.Keys, validHosts, nodes)
    ensures forall h :: h in nodes ==> Lists(t, h, nodes[h])
    ensures forall h :: h in nodes <==> Known(t, validHosts, h)
  {
    forall h | h in nodes
      ensures Lists(t, h, nodes[h])
    {
      forall b | b in nodes[h]
        ensures exists i :: i in t && t[i] == b && h in b.hosts
      {
        assert b in At(nodes, h) && From(t, t.Keys, h, b);
      }
      forall i | i in t && h in t[i].hosts
        ensures t[i] in nodes[h]
      {
        assert i in t.Keys && t[i] in At(nodes, h);
      }
    }
  }

  method SortAll(t: Table, nodes0: Nodes) returns (nodes: Nodes)
    requires Sound(t)
    requires forall h :: h in nodes0 ==> Lists(t, h, nodes0[h])
    ensures NodesOf(t, nodes) && nodes.Keys == nodes0.Keys
  {
    nodes := nodes0;
    var todo := nodes.Keys;
    while todo != {}
      invariant todo <= nodes.Keys == nodes0.Keys
      invariant forall h :: h in nodes ==> Lists(t, h, nodes[h])
      invariant forall h :: h in nodes && h !in todo ==> Timeline(nodes[h])
    {
      var h :| h in todo;
      var rs := SortByStart(nodes[h]);
      PermutationLists(t, h, nodes[h], rs);
      SoundTimeline(t, h, rs);
      nodes := nodes[h := rs];
      todo := todo - {h};
    }
  }

  // The earliest start for named hosts (src/igor/schedule.go:25-46)

  lemma NotYet(t: Table, hosts: seq<Host>, h: Host, from: Time, d: int, to: Time, x: Time)
    requires d > 0 && h in hosts && to == NextFreeTime(t, h, from, d) && from <= x < to
    ensures !FreeAll(t, hosts, x, d)
  {
    assert !Free(t, h, x, d);
  }

  /** One sweep over the hosts: the first host that is busy at `s`, with the next
      time it is free. */
  method FirstBusy(ghost t: Table, nodes: Nodes, hosts: seq<Host>, s: Time, d: int)
    returns (ok: bool, start: Time)
    requires NodesOf(t, nodes) && d > 0
    ensures !ok ==> exists h :: h in hosts && h !in nodes
    ensures ok && start == s ==> FreeAll(t, hosts, s, d) && forall h :: h in hosts ==> h in nodes
    ensures ok && start != s ==> s < start && start in Ends(t)
    ensures ok && start != s ==> forall x :: s <= x < start ==> !FreeAll(t, hosts, x, d)
  {
    for i := 0 to |hosts|
      invariant forall j :: 0 <= j < i ==> hosts[j] in nodes && Free(t, hosts[j], s, d)
    {
      var h := hosts[i];
      if h !in nodes {
        return false, s;
      }
      start := NextFree(nodes[h], s, d);
      NextFreeOnList(t, h, nodes[h], s, d, start);
      if start > s {
        forall x | s <= x < start
          ensures !FreeAll(t, hosts, x, d)
        {
          NotYet(t, hosts, h, s, d, start, x);
        }
        return true, start;
      }
    }
    return true, s;
  }

  /** Restart the sweep at every new start until all hosts are free. */
  method SearchHosts(ghost t: Table, nodes: Nodes, hosts: seq<Host>, s0: Time, d: int)
    returns (ok: bool, start: Time)
    requires NodesOf(t, nodes) && d > 0
    ensures ok <==> forall h :: h in hosts ==> h in nodes
    ensures ok ==> EarliestStart(t, hosts, s0, d, start)
  {
    start := s0;
    while true
      invariant s0 <= start
      invariant forall x :: s0 <= x < start ==> !FreeAll(t, hosts, x, d)
      decreases EndsAfter(t, start)
    {
      var next: Time;
      ok, next := FirstBusy(t, nodes, hosts, start, d);
      if !ok || next == start {
        return;
      }
      EndsAfterShrinks(t, start, next);
      start := next;
    }
  }

  // The contiguous search (src/igor/schedule.go:50-139)

  method UpdateStarts(ghost t: Table, nodes: Nodes, hosts: seq<Host>, a: Time, d: int, starts: array<Time>)
    requires NodesOf(t, nodes) && d > 0 && starts.Length == |hosts|
    requires forall h :: h in hosts ==> h in nodes
    modifies starts
    ensures forall i :: 0 <= i < |hosts| ==> starts[i] == NextFreeTime(t, hosts[i], a, d)
  {
    for i := 0 to |hosts|
      invariant forall j :: 0 <= j < i ==> starts[j] == NextFreeTime(t, hosts[j], a, d)
    {
      assert hosts[i] in hosts;
      starts[i] := NextFree(nodes[hosts[i]], a, d);
      NextFreeOnList(t, hosts[i], nodes[hosts[i]], a, d, starts[i]);
    }
  }

  /** The latest start of a block, from the zero time up. */
  method LatestStart(ghost t: Table, hosts: seq<Host>, a: Time, d: int, starts: array<Time>, i: nat, k: nat)
    returns (latest: Time)
    requires d > 0 && 0 < a && 1 <= k && i + k <= |hosts| == starts.Length
    requires forall j :: 0 <= j < |hosts| ==> starts[j] == NextFreeTime(t, hosts[j], a, d)
    ensures latest == BlockStart(t, hosts, i, k, a, d)
  {
    latest := 0;
    for j := 0 to k
      invariant if j == 0 then latest == 0 else latest == BlockStart(t, hosts, i, j, a, d)
    {
      assert a <= starts[i + j] == NextFreeTime(t, hosts[i + j], a, d);
      if starts[i + j] > latest {
        latest := starts[i + j];
      }
    }
  }

  method BlockIsFree(ghost t: Table, nodes: Nodes, hosts: seq<Host>, i: nat, k: nat, s: Time, d: int)
    returns (free: bool)
    requires NodesOf(t, nodes) && i + k <= |hosts|
    requires forall h :: h in hosts ==> h in nodes
    ensures free <==> BlockFree(t, hosts, i, k, s, d)
  {
    for j := 0 to k
      invariant forall m :: i <= m < i + j ==> Free(t, hosts[m], s, d)
    {
      var h := hosts[i + j];
      assert h in hosts;
      var rs := nodes[h];
      ClearIsFree(t, h, rs, s, d);
      for v := 0 to |rs|
        invariant forall m :: 0 <= m < v ==> !rs[m].IsOverlap(s, s + d)
      {
        if rs[v].IsOverlap(s, s + d) {
          return false;
        }
      }
    }
    return true;
  }

  /** The best block of one pass, if any block fits (src/igor/schedule.go:76-118). */
  method BestBlock(ghost t: Table, nodes: Nodes, hosts: seq<Host>, k: nat, a: Time, d: int, starts: array<Time>)
    returns (found: bool, block: nat, start: Time)
    requires NodesOf(t, nodes) && d > 0 && 0 < a && 1 <= k <= |hosts| == starts.Length
    requires forall h :: h in hosts ==> h in nodes
    requires forall j :: 0 <= j < |hosts| ==> starts[j] == NextFreeTime(t, hosts[j], a, d)
    ensures found ==> Picked(t, hosts, k, a, d, block, start)
    ensures !found ==> forall j: nat :: !Fits(t, hosts, j, k, a, d)
  {
    found, block, start := false, 0, 0;
    for i := 0 to |hosts| - k + 1
      invariant !found ==> forall j: nat :: j < i ==> !Fits(t, hosts, j, k, a, d)
      invariant found ==> block < i && Fits(t, hosts, block, k, a, d) && start == BlockStart(t, hosts, block, k, a, d)
      invariant found ==> forall j: nat :: j < i && Fits(t, hosts, j, k, a, d) ==>
                  start <= BlockStart(t, hosts, j, k, a, d) &&
                  (j < block ==> start < BlockStart(t, hosts, j, k, a, d))
    {
      var s := LatestStart(t, hosts, a, d, starts, i, k);
      var free := BlockIsFree(t, nodes, hosts, i, k, s, d);
      if !free {
        continue;
      }
      if !found || s < start {
        found, block, start := true, i, s;
      }
    }
  }

  method SearchContiguous(ghost t: Table, nodes: Nodes, hosts: seq<Host>, k: nat, s0: Time, d: int)
    returns (block: nat, start: Time, ghost passes: seq<Time>)
    requires NodesOf(t, nodes) && d > 0 && 0 < s0 && 1 <= k <= |hosts|
    requires forall h :: h in hosts ==> h in nodes
    ensures Contiguous(t, hosts, k, s0, d, passes, block, start)
  {
    var starts := new Time[|hosts|];
    var a := s0;
    passes := [s0];
    while true
      invariant 0 < a && Passes(t, hosts, k, d, s0, passes) && passes[|passes| - 1] == a
      decreases EndsAfter(t, a)
    {
      UpdateStarts(t, nodes, hosts, a, d, starts);
      var found;
      found, block, start := BestBlock(t, nodes, hosts, k, a, d, starts);
      if found {
        return;
      }
      var next := LatestStart(t, hosts, a, d, starts, 0, |hosts|);
      BumpProgresses(t, hosts, k, d, a, next);
      passes := passes + [next];
      a := next;
    }
  }

  ghost predicate IsBlockAt(t: Table, validHosts: seq<Host>, k: nat, s0: Time, d: int, hosts: seq<Host>, s: Time,
                            passes: seq<Time>, i: nat)
    requires d > 0 && 1 <= k <= |validHosts|
  {
    Contiguous(t, validHosts, k, s0, d, passes, i, s) && s0 <= s && i + k <= |validHosts| && hosts == validHosts[i..i + k]
  }

  /** `hosts` is the run of `k` valid hosts, and `s` the start, that the contiguous
      search finds from `s0` on. */
  ghost predicate IsBlock(t: Table, validHosts: seq<Host>, k: nat, s0: Time, d: int, hosts: seq<Host>, s: Time) {
    d > 0 && 1 <= k <= |validHosts| && exists passes, i: nat :: IsBlockAt(t, validHosts, k, s0, d, hosts, s, passes, i)
  }

  class Reservation {
    var id: nat
    var start: Time
    var end: Time
    var duration: int
    var hosts: seq<Host>
    var installed: bool

    constructor (hosts: seq<Host>, start: Time, duration: int)
      ensures this.hosts == hosts && this.start == start && this.duration == duration
      ensures id == 0 && end == 0 && !installed
    {
      this.hosts, this.start, this.duration := hosts, start, duration;
      id, end, installed := 0, 0, false;
    }

    function View(): Booking
      reads this
    {
      Booking(start, end, duration, hosts)
    }
  }

  class Store {
    var m: map<nat, Reservation>
    var dirty: bool
    const validHosts: seq<Host>

    function Table(): Table
      reads this, m.Values
    {
      map i | i in m :: m[i].View()
    }

    /** Reservations are filed under their own number, each object once, and no
        host is double-booked. */
    ghost predicate Valid()
      reads this, m.Values
    {
      && (forall i :: i in m ==> m[i].id == i)
      && Sound(Table())
    }

    constructor (validHosts: seq<Host>)
      ensures Valid() && m == map[] && this.validHosts == validHosts
    {
      this.validHosts := validHosts;
      m, dirty := map[], false;
    }

    // Scheduling

    /** Give `res` the first start at which all its hosts are free
        (src/igor/schedule.go:16-46). */
    method ScheduleHosts(res: Reservation, now: Time) returns (ok: bool)
      requires Valid() && res !in m.Values && res.duration > 0
      modifies res`start, res`end
      ensures Table() == old(Table())
      ensures ok <==> forall h :: h in res.hosts ==> Known(old(Table()), validHosts, h)
      ensures ok ==> EarliestStart(old(Table()), res.hosts, if old(res.start) == 0 then now else old(res.start),
                                   res.duration, res.start)
      ensures ok ==> res.end == res.start + res.duration
    {
      var t := Table();
      var nodes := NodesFor(t, validHosts);
      var s0 := if res.start == 0 then now else res.start;
      var start;
      ok, start := SearchHosts(t, nodes, res.hosts, s0, res.duration);
      res.start := start;
      if ok {
        res.end := res.start + res.duration;
      }
    }

    /** Give `res` as many contiguous valid hosts as it has names
        (src/igor/schedule.go:50-139). */
    method ScheduleContiguous(res: Reservation, now: Time) returns (ok: bool, ghost block: nat, ghost passes: seq<Time>)
      requires Valid() && res !in m.Values && res.duration > 0 && res.hosts != [] && 0 <= res.start && 0 < now
      modifies res`start, res`end, res`hosts
      ensures Table() == old(Table())
      ensures ok <==> |old(res.hosts)| <= |validHosts|
      ensures ok ==> Contiguous(old(Table()), validHosts, |old(res.hosts)|,
                                if old(res.start) == 0 then now else old(res.start), res.duration,
                                passes, block, res.start)
      ensures ok ==> block + |old(res.hosts)| <= |validHosts| &&
                     res.hosts == validHosts[block..block + |old(res.hosts)|]
      ensures ok ==> res.end == res.start + res.duration
    {
      var t := Table();
      var nodes := NodesFor(t, validHosts);
      var s0 := if res.start == 0 then now else res.start;
      var k := |res.hosts|;
      if k > |validHosts| {
        res.start := s0;
        return false, 0, [];
      }
      var b, start;
      b, start, passes := SearchContiguous(t, nodes, validHosts, k, s0, res.duration);
      block := b;
      res.start := start;
      res.end := res.start + res.duration;
      res.hosts := validHosts[b..b + k];
      ok := true;
    }

    /** Either search, by whether the hosts are named; the window found is free. */
    method Place(res: Reservation, now: Time) returns (ok: bool)
      requires Valid() && res !in m.Values && res.duration > 0 && res.hosts != [] && 0 <= res.start && 0 < now
      modifies res`start, res`end, res`hosts
      ensures Table() == old(Table())
      ensures old(res.hosts)[0] != "" ==> (ok <==> forall h :: h in old(res.hosts) ==> Known(old(Table()), validHosts, h))
      ensures old(res.hosts)[0] == "" ==> (ok <==> |old(res.hosts)| <= |validHosts|)
      ensures ok ==> res.View().WellTimed() && FreeAll(old(Table()), res.hosts, res.start, res.duration)
      ensures ok && old(res.hosts)[0] != "" ==>
                res.hosts == old(res.hosts) &&
                EarliestStart(old(Table()), res.hosts, if old(res.start) == 0 then now else old(res.start),
                              res.duration, res.start)
      ensures ok && old(res.hosts)[0] == "" ==>
                IsBlock(old(Table()), validHosts, |old(res.hosts)|, if old(res.start) == 0 then now else old(res.start),
                        res.duration, res.hosts, res.start)
    {
      if res.hosts[0] != "" {
        ok := ScheduleHosts(res, now);
      } else {
        ghost var t, k, s0 := Table(), |res.hosts|, if res.start == 0 then now else res.start;
        ghost var block, passes;
        ok, block, passes := ScheduleContiguous(res, now);
        if ok {
          ContiguousSafe(t, validHosts, k, s0, res.duration, passes, block, res.start);
          assert IsBlockAt(t, validHosts, k, s0, res.duration, res.hosts, res.start, passes, block);
        }
      }
    }

    /** Find a place for `res` and, unless this is speculative, file it under the
        drawn number `id` (src/igor/reservations.go:233-259). */
    method Schedule(res: Reservation, speculative: bool, id: nat, now: Time) returns (ok: bool)
      requires Valid() && res !in m.Values && res.duration > 0 && 0 <= res.start && 0 < now
      modifies this`m, this`dirty, res`id, res`start, res`end, res`hosts
      ensures Valid()
      ensures old(res.hosts) == [] ==> !ok
      ensures old(res.hosts) != [] && old(res.hosts)[0] != "" ==>
                (ok <==> forall h :: h in old(res.hosts) ==> Known(old(Table()), validHosts, h))
      ensures old(res.hosts) != [] && old(res.hosts)[0] == "" ==> (ok <==> |old(res.hosts)| <= |validHosts|)
      ensures ok ==> res.View().WellTimed() && FreeAll(old(Table()), res.hosts, res.start, res.duration)
      ensures ok && old(res.hosts)[0] != "" ==>
                res.hosts == old(res.hosts) &&
                EarliestStart(old(Table()), res.hosts, if old(res.start) == 0 then now else old(res.start),
                              res.duration, res.start)
      ensures ok && old(res.hosts)[0] == "" ==>
                IsBlock(old(Table()), validHosts, |old(res.hosts)|, if old(res.start) == 0 then now else old(res.start),
                        res.duration, res.hosts, res.start)
      ensures Table() == if ok && !speculative then old(Table())[id := res.View()] else old(Table())
      ensures Change(old(Table()), Table())
      ensures dirty == (old(dirty) || (ok && !speculative)) && (Table() != old(Table()) ==> dirty)
      ensures ok && !speculative ==> id in m && m[id] == res && res.id == id
    {
      if res.hosts == [] {
        return false;
      }
      ghost var t := Table();
      ok := Place(res, now);
      if !ok || speculative {
        return;
      }
      InsertSound(t, id, res.View());
      File(res, id);
      assert Scheduled(t, Table(), id, res.View());
    }

    /** src/igor/reservations.go:253-256 */
    method File(res: Reservation, id: nat)
      requires Valid() && res !in m.Values && Sound(Table()[id := res.View()])
      modifies this`m, this`dirty, res`id
      ensures Valid() && Table() == old(Table())[id := res.View()]
      ensures res.View() == old(res.View())
      ensures dirty && m == old(m)[id := res] && res.id == id
    {
      ghost var t := Table();
      res.id := id;
      m := m[id := res];
      dirty := true;
      assert Table() == t[id := res.View()];
    }

    // The other changes

    /** Whether the time right behind a reservation is free on all its hosts: a
        trial reservation finds out (src/igor/reservations.go:262-275). */
    method HasRoom(res: Reservation, d: int) returns (free: bool)
      requires Valid() && res.id in m && m[res.id] == res && d > 0
      ensures Table() == old(Table()) && free == FreeAll(Table(), res.hosts, res.end, d)
    {
      ghost var t := Table();
      assert t[res.id] == res.View() && t[res.id].WellTimed();
      var trial := new Reservation(res.hosts, res.end, d);
      free := ScheduleHosts(trial, 0);
      if free && trial.start != res.end {
        assert !FreeAll(t, res.hosts, res.end, d);
        free := false;
      }
    }

    /** Lengthen a reservation if the time right behind it is free
        (src/igor/reservations.go:261-283). */
    method Extend(res: Reservation, d: int) returns (ok: bool)
      requires Valid() && res.id in m && m[res.id] == res && d > 0
      modifies this`dirty, res`end, res`duration
      ensures Valid()
      ensures ok <==> FreeAll(old(Table()), res.hosts, old(res.end), d)
      ensures Table() == if ok then old(Table())[res.id := Extended(old(res.View()), d)] else old(Table())
      ensures ok ==> res.end == old(res.end) + d && res.duration == old(res.duration) + d
      ensures Change(old(Table()), Table())
      ensures dirty == (old(dirty) || ok) && (Table() != old(Table()) ==> dirty)
    {
      ghost var t := Table();
      ok := HasRoom(res, d);
      if !ok {
        return;
      }
      res.end := res.end + d;
      res.duration := res.duration + d;
      dirty := true;
      assert Table() == t[res.id := Extended(t[res.id], d)];
      ExtendSound(t, res.id, d);
      assert Lengthened(t, Table(), res.id, d);
    }

    /** Remove a reservation; the flags say whether the network, the installation
        and the files could be cleaned up (src/igor/reservations.go:138-173). */
    method Delete(id: nat, networkOk: bool, uninstallOk: bool, purgeOk: bool) returns (ok: bool)
      requires Valid()
      modifies this`m, this`dirty
      ensures Valid()
      ensures ok <==> id in old(m) && (old(m)[id].installed ==> networkOk && uninstallOk) && purgeOk
      ensures Table() == if ok then old(Table()) - {id} else old(Table())
      ensures Change(old(Table()), Table())
      ensures dirty == (old(dirty) || ok) && (Table() != old(Table()) ==> dirty)
    {
      if id !in m {
        return false;
      }
      var res := m[id];
      if res.installed && !(networkOk && uninstallOk) {
        return false;
      }
      if !purgeOk {
        return false;
      }
      ghost var t := Table();
      m := m - {res.id};
      dirty := true;
      assert Table() == t - {id};
      assert Deleted(t, Table(), id);
      ok := true;
    }

    /** Replace a reservation by an edited one with the same number. The store
        stays valid exactly when the new one clashes with no other
        (src/igor/reservations.go:175-178). */
    method Edit(res: Reservation, res2: Reservation)
      requires Valid() && res.id in m && m[res.id] == res && res2.id == res.id
      modifies this`m, this`dirty
      ensures m == old(m)[res.id := res2] && dirty
      ensures Valid() <==> Sound(Table())
      ensures Sound(Table()) <==>
        (res2.View().WellTimed() &&
         forall j :: j in old(Table()) && j != res.id ==> Compatible(res2.View(), old(Table())[j]))
      ensures res2.View() == res.View() ==> Valid() && Table() == old(Table())
    {
      ghost var t := Table();
      m := m[res.id := res2];
      dirty := true;
      assert Table() == t[res.id := res2.View()];
      PutSoundIff(t, res.id, res2.View());
      PutSoundIff(t, res.id, res.View());
      assert t[res.id := res.View()] == t;
    }

    /** The reservation that is active on each host; the same whatever order the
        table is read in (src/igor/reservations.go:41-53). */
    method ActiveHosts(now: Time) returns (active: map<Host, Reservation>)
      requires Valid()
      ensures forall h :: h in active <==> exists i :: i in m && m[i].start < now < m[i].end && h in m[i].hosts
      ensures forall h, i :: i in m && m[i].start < now < m[i].end && h in m[i].hosts ==> h in active && active[h] == m[i]
    {
      active := map[];
      var todo := m.Keys;
      while todo != {}
        invariant todo <= m.Keys
        invariant forall h :: h in active ==>
          exists i :: i in m && i !in todo && m[i].View().IsActive(now) && h in m[i].hosts
        invariant forall h, i :: i in m && i !in todo && m[i].View().IsActive(now) && h in m[i].hosts ==>
          h in active && active[h] == m[i]
      {
        var i :| i in todo;
        todo := todo - {i};
        if m[i].View().IsActive(now) {
          active := Mark(i, todo, active, now);
        }
      }
    }

    /** Enter one active reservation for all its hosts. */
    method Mark(i: nat, ghost todo: set<nat>, active0: map<Host, Reservation>, ghost now: Time)
      returns (active: map<Host, Reservation>)
      requires Valid() && i in m && m[i].View().IsActive(now)
      ensures forall h :: h in active <==> h in active0 || h in m[i].hosts
      ensures forall h :: h in active ==> if h in m[i].hosts then active[h] == m[i] else active[h] == active0[h]
      ensures forall h, j :: j in m && j != i && m[j].View().IsActive(now) && h in m[j].hosts ==> h !in m[i].hosts
    {
      active := active0;
      for n := 0 to |m[i].hosts|
        invariant forall h :: h in active <==> h in active0 || h in m[i].hosts[..n]
        invariant forall h :: h in active ==>
          if h in m[i].hosts[..n] then active[h] == m[i] else h in active0 && active[h] == active0[h]
      {
        active := active[m[i].hosts[n] := m[i]];
      }
      assert m[i].hosts[..|m[i].hosts|] == m[i].hosts;
      forall h, j | j in m && j != i && m[j].View().IsActive(now) && h in m[j].hosts
        ensures h !in m[i].hosts
      {
        assert Table()[j] == m[j].View() && Table()[i] == m[i].View();
        if h in m[i].hosts { ActiveUnique(Table(), i, j, h, now); }
      }
    }
  }
}
