/** Host load orders and the hand-written min-heap that keeps the least loaded
    host in position 0. */
module HostHeap {
  import opened Sequences

  /** Snapshot of the fields of a host that scheduling looks at. */
  datatype Stats = Stats(name: string, cpus: int, memTotal: int, vms: int, limit: int,
                         cpuCommit: nat, memCommit: nat, netCommit: nat) {

    /** src/minimega/stats.go:82-84 */
    predicate IsFull() {
      limit != -1 && vms >= limit
    }

    /** src/minimega/scheduler.go:194 */
    predicate IsOver() {
      limit != -1 && vms > limit
    }

    predicate Sane() {
      cpus > 0 && memTotal > 0 && vms >= 0 && limit >= -1
    }
  }

  datatype SortBy = NetCommit | CpuCommit | MemCommit

  /** Committed share of a host, without rounding. */
  function Load(ord: SortBy, h: Stats): real
    requires h.Sane()
  {
    match ord
    case NetCommit => h.netCommit as real
    case CpuCommit => h.cpuCommit as real / h.cpus as real
    case MemCommit => h.memCommit as real / h.memTotal as real
  }

  /** The three commit orders: a full host comes last (src/minimega/scheduler.go:322-356). */
  predicate Before(ord: SortBy, h1: Stats, h2: Stats)
    requires h1.Sane() && h2.Sane()
  {
    if h1.IsFull() != h2.IsFull() then !h1.IsFull() else Load(ord, h1) < Load(ord, h2)
  }

  predicate AtMost(ord: SortBy, h1: Stats, h2: Stats)
    requires h1.Sane() && h2.Sane()
  {
    !Before(ord, h2, h1)
  }

  /** The committed share of `h` is at most that of `v`, in the hosts' own numbers. */
  predicate NoMoreCommitted(ord: SortBy, h: Stats, v: Stats) {
    match ord
    case NetCommit => h.netCommit <= v.netCommit
    case CpuCommit => h.cpuCommit * v.cpus <= v.cpuCommit * h.cpus
    case MemCommit => h.memCommit * v.memTotal <= v.memCommit * h.memTotal
  }

  /** `h` is to be preferred to `v`, or as good: not at its limit unless `v` is,
      and no more committed unless only `v` is at its limit. */
  predicate NoWorse(ord: SortBy, h: Stats, v: Stats) {
    var hFull, vFull := h.limit != -1 && h.limit <= h.vms, v.limit != -1 && v.limit <= v.vms;
    (hFull ==> vFull) && (hFull == vFull ==> NoMoreCommitted(ord, h, v))
  }

  lemma SharesCompare(a: nat, b: int, c: nat, d: int)
    requires b > 0 && d > 0
    ensures a as real / b as real <= c as real / d as real <==> a * d <= c * b
  {
    var x, y, p, q := a as real, c as real, b as real, d as real;
    assert (a * d) as real == x * q && (c * b) as real == y * p;
    assert x == (x / p) * p && y == (y / q) * q;
    var s, t := x / p, y / q;
    assert x * q == s * (p * q) && y * p == t * (p * q);
    ScaleCompare(s, t, p * q);
  }

  lemma ScaleCompare(s: real, t: real, m: real)
    requires m > 0.0
    ensures s <= t <==> s * m <= t * m
  {
    if s <= t { assert (t - s) * m >= 0.0; } else { assert (s - t) * m > 0.0; }
  }

  /** The order over the ratios is this comparison of numbers. */
  lemma AtMostIff(ord: SortBy, h: Stats, v: Stats)
    requires h.Sane() && v.Sane()
    ensures AtMost(ord, h, v) <==> NoWorse(ord, h, v)
  {
    SharesCompare(h.cpuCommit, h.cpus, v.cpuCommit, v.cpus);
    SharesCompare(h.memCommit, h.memTotal, v.memCommit, v.memTotal);
  }

  /** A strict weak order: incomparable hosts are equally loaded. */
  lemma OrderIsWeak(ord: SortBy, a: Stats, b: Stats, c: Stats)
    requires a.Sane() && b.Sane() && c.Sane()
    ensures !(Before(ord, a, b) && Before(ord, b, a))
    ensures AtMost(ord, a, b) && AtMost(ord, b, c) ==> AtMost(ord, a, c)
    ensures Before(ord, a, b) && AtMost(ord, b, c) ==> Before(ord, a, c)
  {
  }

  class HostStats {
    const name: string
    const cpus: int
    const memTotal: int
    var vms: int
    var limit: int
    var cpuCommit: nat
    var memCommit: nat
    var netCommit: nat

    constructor (s: Stats)
      ensures View() == s
    {
      name, cpus, memTotal := s.name, s.cpus, s.memTotal;
      vms, limit := s.vms, s.limit;
      cpuCommit, memCommit, netCommit := s.cpuCommit, s.memCommit, s.netCommit;
    }

    function View(): Stats
      reads this
    {
      Stats(name, cpus, memTotal, vms, limit, cpuCommit, memCommit, netCommit)
    }
  }

  function Views(hs: seq<HostStats>): (vs: seq<Stats>)
    reads hs
    ensures |vs| == |hs| && forall i :: 0 <= i < |hs| ==> vs[i] == hs[i].View()
  {
    seq(|hs|, i requires 0 <= i < |hs| reads hs => hs[i].View())
  }

  // The heap, over the hosts' values

  function Up(i: nat): nat
    requires i > 0
  {
    (i - 1) / 2
  }

  predicate AllSane(vs: seq<Stats>) {
    forall i :: 0 <= i < |vs| ==> vs[i].Sane()
  }

  ghost predicate LinkOk(ord: SortBy, vs: seq<Stats>, i: int)
    requires AllSane(vs)
  {
    0 < i < |vs| ==> AtMost(ord, vs[Up(i)], vs[i])
  }

  /** Every host from position `lo` down is at most as loaded as its children. */
  ghost predicate HeapFrom(ord: SortBy, vs: seq<Stats>, lo: int)
    requires AllSane(vs)
  {
    forall i :: 0 < i < |vs| && Up(i) >= lo ==> LinkOk(ord, vs, i)
  }

  /** A heap but for the children of `r`, which are no lighter than what is above. */
  ghost predicate HeapBut(ord: SortBy, vs: seq<Stats>, lo: int, r: nat)
    requires AllSane(vs) && r < |vs|
  {
    && lo <= r
    && (forall i :: 0 < i < |vs| && Up(i) >= lo && Up(i) != r ==> LinkOk(ord, vs, i))
    && (r > 0 && Up(r) >= lo ==>
          forall i :: 0 < i < |vs| && Up(i) == r ==> AtMost(ord, vs[Up(r)], vs[i]))
  }

  function Swapped<T>(s: seq<T>, i: nat, j: nat): seq<T>
    requires i < |s| && j < |s|
  {
    s[i := s[j]][j := s[i]]
  }

  /** Swapping `r` with its lightest child moves the defect down to the child. */
  lemma SwapDown(ord: SortBy, vs: seq<Stats>, lo: int, r: nat, c: nat)
    requires AllSane(vs) && r < |vs| && HeapBut(ord, vs, lo, r)
    requires 0 < c < |vs| && Up(c) == r && AtMost(ord, vs[c], vs[r])
    requires forall i :: 0 < i < |vs| && Up(i) == r ==> AtMost(ord, vs[c], vs[i])
    ensures AllSane(Swapped(vs, r, c)) && HeapBut(ord, Swapped(vs, r, c), lo, c)
  {
    var ws := Swapped(vs, r, c);
    forall i | 0 < i < |ws| && Up(i) >= lo && Up(i) != c
      ensures LinkOk(ord, ws, i)
    {
      if Up(i) != r && i != r {
        assert LinkOk(ord, vs, i);
      }
    }
    forall i | 0 < i < |ws| && Up(i) == c
      ensures AtMost(ord, ws[Up(c)], ws[i])
    {
      assert LinkOk(ord, vs, i);
    }
  }

  /** No defect is left once the node is lighter than its children. */
  lemma NoDefectLeft(ord: SortBy, vs: seq<Stats>, lo: int, r: nat)
    requires AllSane(vs) && r < |vs| && HeapBut(ord, vs, lo, r)
    requires forall i :: 0 < i < |vs| && Up(i) == r ==> AtMost(ord, vs[r], vs[i])
    ensures HeapFrom(ord, vs, lo)
  {
  }

  /** The root of a heap is a minimum. */
  lemma {:induction false} RootIsLeast(ord: SortBy, vs: seq<Stats>, i: nat)
    requires AllSane(vs) && HeapFrom(ord, vs, 0) && i < |vs|
    ensures AtMost(ord, vs[0], vs[i])
    decreases i
  {
    if i > 0 {
      RootIsLeast(ord, vs, Up(i));
      assert LinkOk(ord, vs, i);
      OrderIsWeak(ord, vs[0], vs[Up(i)], vs[i]);
    }
  }

  /** Raising the load of one host leaves a heap but for its children. */
  lemma RaisedKeyKeepsHeap(ord: SortBy, vs: seq<Stats>, ws: seq<Stats>, r: nat)
    requires AllSane(vs) && AllSane(ws) && |ws| == |vs| && r < |vs| && HeapFrom(ord, vs, 0)
    requires forall i :: 0 <= i < |vs| && i != r ==> ws[i] == vs[i]
    requires AtMost(ord, vs[r], ws[r])
    ensures HeapBut(ord, ws, 0, r)
  {
    forall i | 0 < i < |ws| && Up(i) != r
      ensures LinkOk(ord, ws, i)
    {
      assert LinkOk(ord, vs, i);
      if i == r { OrderIsWeak(ord, vs[Up(r)], vs[r], ws[r]); }
    }
    if r > 0 {
      assert LinkOk(ord, vs, r);
      forall i | 0 < i < |ws| && Up(i) == r
        ensures AtMost(ord, ws[Up(r)], ws[i])
      {
        assert LinkOk(ord, vs, i);
        OrderIsWeak(ord, vs[Up(r)], vs[r], vs[i]);
      }
    }
  }

  lemma ChildrenOf(i: nat, r: nat)
    requires i > 0 && Up(i) == r
    ensures i == 2 * r + 1 || i == 2 * r + 2
  {
  }

  /** The lighter of the children of `root`. */
  method LighterChild(ord: SortBy, hosts: array<HostStats>, root: nat, ghost vs: seq<Stats>) returns (child: nat)
    requires vs == Views(hosts[..]) && AllSane(vs) && 2 * root + 1 < hosts.Length
    ensures 0 < child < |vs| && Up(child) == root && root < child
    ensures forall i :: 0 < i < |vs| && Up(i) == root ==> AtMost(ord, vs[child], vs[i])
  {
    child := 2 * root + 1;
    if child + 1 < hosts.Length && !Before(ord, hosts[child].View(), hosts[child + 1].View()) {
      child := child + 1;
    }
    Lightest(ord, vs, root, child);
  }

  /** src/minimega/scheduler.go:266-268 */
  method Swap(hosts: array<HostStats>, i: nat, j: nat)
    requires i < hosts.Length && j < hosts.Length
    modifies hosts
    ensures hosts[..] == Swapped(old(hosts[..]), i, j)
    ensures multiset(hosts[..]) == multiset(old(hosts[..]))
    ensures Views(hosts[..]) == Swapped(old(Views(hosts[..])), i, j)
  {
    ghost var hs, vs := hosts[..], Views(hosts[..]);
    hosts[i], hosts[j] := hosts[j], hosts[i];
    assert hosts[..] == Swapped(hs, i, j);
    SwapKeepsAll(hs, i, j);
    assert Views(hosts[..]) == Swapped(vs, i, j);
  }

  lemma SwapKeepsAll(hs: seq<HostStats>, i: nat, j: nat)
    requires i < |hs| && j < |hs|
    ensures multiset(Swapped(hs, i, j)) == multiset(hs)
  {
  }

  /** Sift the host at `root` down to where it belongs
      (src/minimega/scheduler.go:238-260). */
  method SiftDown(ord: SortBy, hosts: array<HostStats>, root0: nat, ghost lo: int)
    requires AllSane(Views(hosts[..])) && root0 < hosts.Length
    requires HeapBut(ord, Views(hosts[..]), lo, root0)
    modifies hosts
    ensures multiset(hosts[..]) == multiset(old(hosts[..]))
    ensures AllSane(Views(hosts[..])) && HeapFrom(ord, Views(hosts[..]), lo)
  {
    hide HeapBut, HeapFrom, AtMost;
    var root := root0;
    ghost var vs := Views(hosts[..]);
    while 2 * root + 1 < hosts.Length
      invariant root < hosts.Length
      invariant multiset(hosts[..]) == multiset(old(hosts[..]))
      invariant vs == Views(hosts[..]) && AllSane(vs) && HeapBut(ord, vs, lo, root)
      decreases hosts.Length - root
    {
      var child := LighterChild(ord, hosts, root, vs);
      if Before(ord, hosts[root].View(), hosts[child].View()) {
        LighterThanChildren(ord, vs, root, child);
        NoDefectLeft(ord, vs, lo, root);
        return;
      }
      SwapDown(ord, vs, lo, root, child);
      Swap(hosts, root, child);
      vs := Swapped(vs, root, child);
      root := child;
    }
    Childless(ord, vs, root);
    NoDefectLeft(ord, vs, lo, root);
  }

  lemma Childless(ord: SortBy, vs: seq<Stats>, r: nat)
    requires AllSane(vs) && r < |vs| <= 2 * r + 1
    ensures forall i :: 0 < i < |vs| && Up(i) == r ==> AtMost(ord, vs[r], vs[i])
  {
  }

  lemma Lightest(ord: SortBy, vs: seq<Stats>, r: nat, c: nat)
    requires AllSane(vs) && 0 < c < |vs| && (c == 2 * r + 1 || c == 2 * r + 2)
    requires c == 2 * r + 1 && c + 1 < |vs| ==> Before(ord, vs[c], vs[c + 1])
    requires c == 2 * r + 2 ==> !Before(ord, vs[c - 1], vs[c])
    ensures Up(c) == r
    ensures forall i :: 0 < i < |vs| && Up(i) == r ==> AtMost(ord, vs[c], vs[i])
  {
    forall i | 0 < i < |vs| && Up(i) == r
      ensures AtMost(ord, vs[c], vs[i])
    {
      ChildrenOf(i, r);
    }
  }

  lemma LighterThanChildren(ord: SortBy, vs: seq<Stats>, r: nat, c: nat)
    requires AllSane(vs) && r < |vs| && c < |vs| && Before(ord, vs[r], vs[c])
    requires forall i :: 0 < i < |vs| && Up(i) == r ==> AtMost(ord, vs[c], vs[i])
    ensures forall i :: 0 < i < |vs| && Up(i) == r ==> AtMost(ord, vs[r], vs[i])
  {
    forall i | 0 < i < |vs| && Up(i) == r
      ensures AtMost(ord, vs[r], vs[i])
    {
      OrderIsWeak(ord, vs[r], vs[c], vs[i]);
    }
  }

  lemma NothingAbove(ord: SortBy, vs: seq<Stats>, r: nat)
    requires AllSane(vs) && r < |vs| && HeapFrom(ord, vs, r + 1)
    ensures HeapBut(ord, vs, r, r)
  {
    forall i | 0 < i < |vs| && Up(i) >= r && Up(i) != r
      ensures LinkOk(ord, vs, i)
    {
    }
  }

  /** Build the heap bottom up (src/minimega/scheduler.go:208-218). */
  method Heapify(ord: SortBy, hosts: array<HostStats>)
    requires AllSane(Views(hosts[..]))
    modifies hosts
    ensures multiset(hosts[..]) == multiset(old(hosts[..]))
    ensures AllSane(Views(hosts[..])) && HeapFrom(ord, Views(hosts[..]), 0)
  {
    if hosts.Length == 0 {
      return;
    }
    var i := (hosts.Length - 1) / 2;
    while i >= 0
      invariant -1 <= i < hosts.Length
      invariant multiset(hosts[..]) == multiset(old(hosts[..]))
      invariant AllSane(Views(hosts[..])) && HeapFrom(ord, Views(hosts[..]), i + 1)
    {
      NothingAbove(ord, Views(hosts[..]), i);
      SiftDown(ord, hosts, i, i);
      i := i - 1;
    }
  }

  ghost predicate NamesDistinct(vs: seq<Stats>) {
    forall i, j :: 0 <= i < j < |vs| ==> vs[i].name != vs[j].name
  }

  /** Restore the heap after the load of one host has risen; sifting down is
      enough (src/minimega/scheduler.go:222-234). */
  method Update(ord: SortBy, hosts: array<HostStats>, name: string, ghost before: seq<Stats>, ghost r: nat)
    requires AllSane(before) && AllSane(Views(hosts[..])) && |before| == hosts.Length && r < hosts.Length
    requires HeapFrom(ord, before, 0)
    requires forall i :: 0 <= i < hosts.Length && i != r ==> Views(hosts[..])[i] == before[i]
    requires AtMost(ord, before[r], Views(hosts[..])[r])
    requires NamesDistinct(Views(hosts[..])) && hosts[r].name == name
    modifies hosts
    ensures multiset(hosts[..]) == multiset(old(hosts[..]))
    ensures AllSane(Views(hosts[..])) && HeapFrom(ord, Views(hosts[..]), 0)
  {
    ghost var vs := Views(hosts[..]);
    RaisedKeyKeepsHeap(ord, before, vs, r);
    for i := 0 to hosts.Length
      invariant hosts[..] == old(hosts[..])
      invariant i <= r
    {
      if hosts[i].name == name {
        assert vs[i].name == vs[r].name;
        SiftDown(ord, hosts, i, 0);
        return;
      }
    }
  }

  /** Hosts are different objects with different names. */
  ghost predicate HostsOk(hs: seq<HostStats>) {
    && (forall i :: 0 <= i < |hs| ==> multiset(hs)[hs[i]] <= 1)
    && (forall i, j :: 0 <= i < |hs| && 0 <= j < |hs| && hs[i].name == hs[j].name ==> hs[i] == hs[j])
  }

  lemma HostsDiffer(hs: seq<HostStats>, i: nat, j: nat)
    requires HostsOk(hs) && i < |hs| && j < |hs| && i != j
    ensures hs[i] != hs[j] && hs[i].name != hs[j].name
  {
    if hs[i] == hs[j] { TwiceCounts(hs, if i < j then i else j, if i < j then j else i); }
  }

  lemma ViewNamesDiffer(hs: seq<HostStats>)
    requires HostsOk(hs)
    ensures NamesDistinct(Views(hs))
  {
    forall i, j | 0 <= i < j < |hs|
      ensures Views(hs)[i].name != Views(hs)[j].name
    {
      HostsDiffer(hs, i, j);
    }
  }

  lemma SameHosts(hs: seq<HostStats>, hs': seq<HostStats>)
    requires multiset(hs) == multiset(hs')
    ensures HostsOk(hs) ==> HostsOk(hs')
    ensures forall v :: v in Views(hs') ==> v in Views(hs)
  {
    forall i | 0 <= i < |hs'|
      ensures hs'[i] in hs
    {
      assert hs'[i] in multiset(hs');
      assert hs'[i] in multiset(hs);
    }
    forall v | v in Views(hs')
      ensures v in Views(hs)
    {
      var i :| 0 <= i < |hs'| && Views(hs')[i] == v;
      var j :| 0 <= j < |hs| && hs[j] == hs'[i];
      assert Views(hs)[j] == v;
    }
    if HostsOk(hs) {
      forall i, j | 0 <= i < |hs'| && 0 <= j < |hs'| && hs'[i].name == hs'[j].name
        ensures hs'[i] == hs'[j]
      {
        var a :| 0 <= a < |hs| && hs[a] == hs'[i];
        var b :| 0 <= b < |hs| && hs[b] == hs'[j];
      }
    }
  }
}
